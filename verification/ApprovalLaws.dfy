/** What every reachable state of the approval protocol satisfies. */
module ApprovalLaws {
  import opened Documents
  import opened Options
  import opened Approvals

  /** The columns that no statement ever updates. */
  ghost predicate SameColumns(a: ArtifactRow, b: ArtifactRow) {
    && a.artifactId == b.artifactId && a.workflowRunId == b.workflowRunId && a.version == b.version
    && a.metricName == b.metricName && a.irHash == b.irHash && a.artifactHash == b.artifactHash
  }

  /** A record carries the identity and hashes of the artifact it reviews, and the artifact is in
      review, approved or rejected exactly as the record says. */
  ghost predicate RecordMatches(r: RecordRow, row: ArtifactRow) {
    && r.artifactId == row.artifactId && r.workflowRunId == row.workflowRunId && r.version == row.version
    && r.metricName == row.metricName && r.irHash == row.irHash && r.artifactHash == row.artifactHash
    && StatusTells(row.status, r.decision)
  }

  ghost predicate StatusTells(status: Status, decision: Decision) {
    && (status == PendingReview <==> decision == Pending) && (status == StatusApproved <==> decision == Approved)
    && (status == StatusRejected <==> decision == Rejected)
  }

  /** Decision author and revision agree with the decision. */
  ghost predicate RecordShape(r: RecordRow) {
    && (r.decision == Pending ==> r.reviewer == None && r.comment == None && r.revision == 1)
    && (r.decision != Pending ==> r.reviewer.Some? && r.comment.Some? && r.revision == 2)
  }

  ghost predicate HasRecord(s: State, artifactId: string) {
    exists r :: r in s.records && s.records[r].artifactId == artifactId
  }

  /** Every record is filed under its identifier and matches the artifact it names. */
  ghost predicate RecordsMatch(s: State) {
    forall r | r in s.records ::
      && s.records[r].approvalId == r && RecordShape(s.records[r])
      && s.records[r].artifactId in s.artifacts
      && RecordMatches(s.records[r], s.artifacts[s.records[r].artifactId])
  }

  /** At most one record per artifact. */
  ghost predicate OneRecordEach(s: State) {
    forall r, q | r in s.records && q in s.records && s.records[r].artifactId == s.records[q].artifactId :: r == q
  }

  /** Artifacts are filed under their identifier, and exactly the drafts have no record. */
  ghost predicate DraftsUnrecorded(s: State) {
    forall a | a in s.artifacts ::
      s.artifacts[a].artifactId == a && (s.artifacts[a].status == Draft <==> !HasRecord(s, a))
  }

  ghost predicate TablesAgree(s: State) {
    RecordsMatch(s) && OneRecordEach(s) && DraftsUnrecorded(s)
  }

  /** The row a session verified: its snapshot hashed to the columns it was read with. */
  ghost predicate Seen(row: ArtifactRow, s: State, h: Hashes) {
    && row.artifactId in s.artifacts && SameColumns(row, s.artifacts[row.artifactId])
    && row.snapshot.Snapshot?
    && h.ir(row.snapshot.metricIr) == row.irHash && h.content(row.snapshot.artifact.content) == row.artifactHash
  }

  /** A record a session read: either still the committed one, or decided by now. */
  ghost predicate Read(r: RecordRow, s: State) {
    && r.approvalId in s.records && r.artifactId == s.records[r.approvalId].artifactId
    && r.irHash == s.records[r.approvalId].irHash && r.artifactHash == s.records[r.approvalId].artifactHash
    && (s.records[r.approvalId].decision == Pending ==> s.records[r.approvalId] == r)
  }

  ghost predicate SessionAgrees(s: State, id: nat, h: Hashes) {
    match SessionOf(s, id)
    case Idle => true
    case SubmitChecked(row) => Seen(row, s, h)
    case SubmitUpdated(row) =>
      && Seen(row, s, h)
      && row.artifactId in s.locks && s.locks[row.artifactId] == id && s.artifacts[row.artifactId].status == Draft
    case DecideRead(decision, _, r) => decision != Pending && Read(r, s)
    case DecideChecked(decision, _, r, row) =>
      decision != Pending && Read(r, s) && r.decision == Pending && Seen(row, s, h) && row.artifactId == r.artifactId
    case DecideUpdated(decision, _, r, row) =>
      && decision != Pending && Read(r, s) && r.decision == Pending && Seen(row, s, h) && row.artifactId == r.artifactId
      && r.artifactId in s.locks && s.locks[r.artifactId] == id && s.artifacts[r.artifactId].status == PendingReview
  }

  /** Documents named by an event hash to the columns of the record they concern. */
  ghost predicate EventMatches(e: Event, s: State, h: Hashes) {
    && e.approvalId in s.records && s.records[e.approvalId].artifactId == e.artifactId
    && h.ir(e.ir) == s.records[e.approvalId].irHash && h.content(e.content) == s.records[e.approvalId].artifactHash
    && (e.Decided? ==> s.records[e.approvalId].decision == e.decision != Pending)
  }

  function Submissions(log: seq<Event>, approvalId: string): nat {
    if log == [] then 0
    else Submissions(log[..|log| - 1], approvalId)
         + (if log[|log| - 1].Submitted? && log[|log| - 1].approvalId == approvalId then 1 else 0)
  }

  function Decisions(log: seq<Event>, approvalId: string): nat {
    if log == [] then 0
    else Decisions(log[..|log| - 1], approvalId)
         + (if log[|log| - 1].Decided? && log[|log| - 1].approvalId == approvalId then 1 else 0)
  }

  /** The history holds one submission per record and one decision per decided record. */
  ghost predicate LogAgrees(s: State, h: Hashes) {
    && (forall i | 0 <= i < |s.log| :: EventMatches(s.log[i], s, h))
    && (forall r :: Submissions(s.log, r) == if r in s.records then 1 else 0)
    && (forall r :: Decisions(s.log, r) == if r in s.records && s.records[r].decision != Pending then 1 else 0)
    && (forall j | 0 <= j < |s.log| && s.log[j].Decided? :: SubmittedBefore(s.log, j, s.log[j].approvalId))
  }

  ghost predicate SubmittedBefore(log: seq<Event>, j: nat, approvalId: string)
    requires j <= |log|
  {
    exists i :: 0 <= i < j && log[i].Submitted? && log[i].approvalId == approvalId
  }

  lemma {:induction false} SubmissionsWitness(log: seq<Event>, approvalId: string)
    requires Submissions(log, approvalId) > 0
    ensures SubmittedBefore(log, |log|, approvalId)
  {
    var last := log[|log| - 1];
    if !(last.Submitted? && last.approvalId == approvalId) {
      SubmissionsWitness(log[..|log| - 1], approvalId);
      var i :| 0 <= i < |log| - 1 && log[i].Submitted? && log[i].approvalId == approvalId;
    }
  }

  ghost predicate Inv(s: State, h: Hashes) {
    && TablesAgree(s)
    && (forall id: nat :: SessionAgrees(s, id, h))
    && LogAgrees(s, h)
  }

  // ------------------------------------------------------------ steps that leave the tables alone

  /** Sessions keep agreeing when only session `id` and the locks it holds change. */
  lemma {:induction false} OtherSessionsKeep(s: State, t: State, id: nat, h: Hashes)
    requires Inv(s, h)
    requires t.artifacts == s.artifacts && t.records == s.records && t.log == s.log
    requires forall k: nat | k != id :: SessionOf(t, k) == SessionOf(s, k)
    requires forall a | a in s.locks && s.locks[a] != id :: a in t.locks && t.locks[a] == s.locks[a]
    requires SessionAgrees(t, id, h)
    ensures Inv(t, h)
  {
    assert TablesAgree(t) by { assert forall a :: HasRecord(t, a) <==> HasRecord(s, a); }
    forall k: nat ensures SessionAgrees(t, k, h) {
      if k != id { assert SessionAgrees(s, k, h); }
    }
    assert forall e :: EventMatches(e, s, h) <==> EventMatches(e, t, h);
  }

  lemma {:induction false} ReleaseKeeps(s: State, id: nat, h: Hashes)
    requires Inv(s, h)
    ensures Inv(Release(s, id), h)
  {
    OtherSessionsKeep(s, Release(s, id), id, h);
  }

  lemma {:induction false} UpdateKeeps(
      s: State, id: nat, artifactId: string, expected: Status, next: Session, h: Hashes)
    requires Inv(s, h)
    requires artifactId !in s.locks || s.locks[artifactId] == id
    requires artifactId in s.artifacts && s.artifacts[artifactId].status == expected
    requires SessionAgrees(WithSession(s, id, next).(locks := s.locks[artifactId := id]), id, h)
    ensures Inv(ConditionalUpdate(s, id, artifactId, expected, next), h)
  {
    OtherSessionsKeep(s, WithSession(s, id, next).(locks := s.locks[artifactId := id]), id, h);
  }

  // ------------------------------------------------------------ steps that change one artifact

  /** Tables only move on: rows keep their fixed columns, and an undecided record is unchanged. */
  ghost predicate Continues(s: State, t: State) {
    && (forall a | a in s.artifacts :: a in t.artifacts && SameColumns(s.artifacts[a], t.artifacts[a]))
    && (forall r | r in s.records ::
          && r in t.records && t.records[r].artifactId == s.records[r].artifactId
          && t.records[r].irHash == s.records[r].irHash && t.records[r].artifactHash == s.records[r].artifactHash
          && (t.records[r].decision == Pending ==> t.records[r] == s.records[r])
          && (s.records[r].decision != Pending ==> t.records[r] == s.records[r]))
  }

  /** Locks of session `k` are kept, and nobody moved the status of a row it has locked. */
  ghost predicate RespectsLocks(s: State, t: State, k: nat) {
    forall a | a in s.locks && s.locks[a] == k ::
      && a in t.locks && t.locks[a] == k
      && (a in s.artifacts && a in t.artifacts ==> t.artifacts[a].status == s.artifacts[a].status)
  }

  lemma {:induction false} SessionContinues(s: State, t: State, h: Hashes, k: nat)
    requires SessionAgrees(s, k, h) && SessionOf(t, k) == SessionOf(s, k)
    requires Continues(s, t) && RespectsLocks(s, t, k)
    ensures SessionAgrees(t, k, h)
  {
  }

  lemma {:induction false} EventContinues(s: State, t: State, e: Event, h: Hashes)
    requires EventMatches(e, s, h) && Continues(s, t)
    ensures EventMatches(e, t, h)
  {
  }

  lemma {:induction false} LogContinues(s: State, t: State, h: Hashes)
    requires LogAgrees(s, h) && Continues(s, t) && t.log == s.log && t.records == s.records
    ensures LogAgrees(t, h)
  {
    forall i | 0 <= i < |t.log| ensures EventMatches(t.log[i], t, h) { EventContinues(s, t, s.log[i], h); }
  }

  /** A step that leaves records, locks and sessions alone and keeps every artifact's columns and
      status keeps the invariant, once the tables are known to agree. */
  lemma {:induction false} QuietStepKeeps(s: State, t: State, h: Hashes)
    requires Inv(s, h) && TablesAgree(t) && Continues(s, t)
    requires t.records == s.records && t.locks == s.locks && t.sessions == s.sessions && t.log == s.log
    requires forall a | a in s.artifacts && a in t.artifacts :: t.artifacts[a].status == s.artifacts[a].status
    ensures Inv(t, h)
  {
    LogContinues(s, t, h);
    forall k: nat ensures SessionAgrees(t, k, h) {
      assert SessionAgrees(s, k, h);
      hide SessionAgrees, Continues, Inv, TablesAgree, LogAgrees;
      SessionContinues(s, t, h, k);
    }
  }

  lemma {:induction false} SaveTables(s: State, row: ArtifactRow)
    requires TablesAgree(s) && InsertsArtifact(s.artifacts, row) && row.status == Draft
    ensures var t := s.(artifacts := s.artifacts[row.artifactId := row]); TablesAgree(t) && Continues(s, t)
  {
    hide RecordsMatch, DraftsUnrecorded, Continues;
    assert OneRecordEach(s.(artifacts := s.artifacts[row.artifactId := row]));
    SavedRecordsMatch(s, row);
    SavedDrafts(s, row);
  }

  lemma {:induction false} SavedRecordsMatch(s: State, row: ArtifactRow)
    requires RecordsMatch(s) && InsertsArtifact(s.artifacts, row)
    ensures var t := s.(artifacts := s.artifacts[row.artifactId := row]); RecordsMatch(t) && Continues(s, t)
  {
    hide RecordShape, RecordMatches;
  }

  lemma {:induction false} SavedDrafts(s: State, row: ArtifactRow)
    requires RecordsMatch(s) && DraftsUnrecorded(s) && InsertsArtifact(s.artifacts, row) && row.status == Draft
    ensures DraftsUnrecorded(s.(artifacts := s.artifacts[row.artifactId := row]))
  {
    var t := s.(artifacts := s.artifacts[row.artifactId := row]);
    hide RecordShape, RecordMatches;
    assert !HasRecord(s, row.artifactId);
    hide RecordsMatch;
    forall a ensures HasRecord(t, a) <==> HasRecord(s, a) {}
    hide HasRecord;
  }

  lemma {:induction false} EditTables(s: State, artifactId: string, snapshot: Snapshot)
    requires TablesAgree(s) && artifactId in s.artifacts
    ensures var t := s.(artifacts := s.artifacts[artifactId := s.artifacts[artifactId].(snapshot := snapshot)]);
            TablesAgree(t) && Continues(s, t)
  {
    var t := s.(artifacts := s.artifacts[artifactId := s.artifacts[artifactId].(snapshot := snapshot)]);
    forall a ensures HasRecord(t, a) <==> HasRecord(s, a) {}
  }

  lemma {:induction false} SaveKeeps(s: State, snapshot: Snapshot, h: Hashes)
    requires Inv(s, h) && snapshot.Snapshot? && InsertsArtifact(s.artifacts, RowOf(snapshot, h))
    ensures Inv(Step(s, Save(snapshot), h), h)
  {
    SaveTables(s, RowOf(snapshot, h));
    hide SessionAgrees, LogAgrees, TablesAgree, Continues;
    QuietStepKeeps(s, Step(s, Save(snapshot), h), h);
  }

  lemma {:induction false} EditKeeps(s: State, artifactId: string, snapshot: Snapshot, h: Hashes)
    requires Inv(s, h) && artifactId in s.artifacts
    ensures Inv(Step(s, Edit(artifactId, snapshot), h), h)
  {
    EditTables(s, artifactId, snapshot);
    hide SessionAgrees, LogAgrees, TablesAgree, Continues;
    QuietStepKeeps(s, Step(s, Edit(artifactId, snapshot), h), h);
  }

  /** A submitter that won its UPDATE can always insert its record under a fresh identifier. */
  lemma {:induction false} SubmitNeverConflicts(s: State, id: nat, newId: string, h: Hashes)
    requires Inv(s, h) && SessionOf(s, id).SubmitUpdated? && newId !in s.records
    ensures var row := SessionOf(s, id).artifact;
            row.artifactId in s.artifacts && row.snapshot.Snapshot? && InsertsRecord(s.records, newId, row.artifactId)
  {
    assert SessionAgrees(s, id, h);
    assert !HasRecord(s, SessionOf(s, id).artifact.artifactId);
  }

  /** A decider that won its UPDATE always still holds the current revision of the record. */
  lemma {:induction false} DecisionNeverStale(s: State, id: nat, h: Hashes)
    requires Inv(s, h) && SessionOf(s, id).DecideUpdated?
    ensures var r, row := SessionOf(s, id).record, SessionOf(s, id).artifact;
            && r.artifactId in s.artifacts && r.approvalId in s.records && s.records[r.approvalId] == r
            && row.snapshot.Snapshot? && r.decision == Pending
  {
    assert SessionAgrees(s, id, h);
  }

  // ------------------------------------------------------------ commits

  /** Changing the status of one artifact whose record, if any, changes with it. */
  ghost predicate Moves(s: State, t: State, a: string, status: Status) {
    && a in s.artifacts && t.artifacts == s.artifacts[a := s.artifacts[a].(status := status)]
    && forall r | r in s.records && s.records[r].artifactId != a :: r in t.records && t.records[r] == s.records[r]
  }

  lemma {:induction false} InsertedRecordsMatch(s: State, t: State, a: string, newId: string)
    requires RecordsMatch(s) && Moves(s, t, a, PendingReview) && InsertsRecord(s.records, newId, a)
    requires s.artifacts[a].artifactId == a && t.records == s.records[newId := NewRecord(s.artifacts[a], newId)]
    ensures RecordsMatch(t) && Continues(s, t)
  {
    forall r | r in t.records
      ensures && t.records[r].approvalId == r && RecordShape(t.records[r])
              && t.records[r].artifactId in t.artifacts
              && RecordMatches(t.records[r], t.artifacts[t.records[r].artifactId])
    {
      if r != newId { assert t.records[r] == s.records[r]; }
    }
  }

  lemma {:induction false} InsertedDrafts(s: State, t: State, a: string, newId: string)
    requires DraftsUnrecorded(s) && Moves(s, t, a, PendingReview) && InsertsRecord(s.records, newId, a)
    requires s.artifacts[a].artifactId == a && t.records == s.records[newId := NewRecord(s.artifacts[a], newId)]
    ensures DraftsUnrecorded(t)
  {
    forall x ensures HasRecord(t, x) <==> HasRecord(s, x) || x == a {
      if x == a { assert t.records[newId].artifactId == x; }
      if HasRecord(s, x) {
        var r :| r in s.records && s.records[r].artifactId == x;
        assert t.records[r] == s.records[r];
      }
    }
  }

  /** Inserting a record for an unrecorded artifact and moving the artifact to review. */
  lemma {:induction false} RecordInserted(s: State, t: State, a: string, newId: string)
    requires TablesAgree(s) && Moves(s, t, a, PendingReview) && InsertsRecord(s.records, newId, a)
    requires t.records == s.records[newId := NewRecord(s.artifacts[a], newId)]
    ensures TablesAgree(t) && Continues(s, t)
  {
    assert s.artifacts[a].artifactId == a;
    hide RecordsMatch, DraftsUnrecorded, Continues;
    assert OneRecordEach(t);
    hide OneRecordEach;
    InsertedRecordsMatch(s, t, a, newId);
    InsertedDrafts(s, t, a, newId);
  }

  function SubmissionEvent(session: Session, newId: string): Event
    requires session.SubmitUpdated? && session.artifact.snapshot.Snapshot?
  {
    Submitted(newId, session.artifact.artifactId, session.artifact.snapshot.metricIr,
              session.artifact.snapshot.artifact.content)
  }

  /** A winning submission: its artifact in review, its record, its event, and nothing left locked. */
  lemma {:induction false} CommitSubmitEffect(s: State, id: nat, newId: string, h: Hashes)
    requires SessionOf(s, id).SubmitUpdated? && SessionOf(s, id).artifact.snapshot.Snapshot?
    requires SessionOf(s, id).artifact.artifactId in s.artifacts
    requires InsertsRecord(s.records, newId, SessionOf(s, id).artifact.artifactId)
    ensures var row := SessionOf(s, id).artifact;
            Step(s, CommitSubmit(id, newId), h)
            == Release(s, id).(
                 artifacts := s.artifacts[row.artifactId := s.artifacts[row.artifactId].(status := PendingReview)],
                 records := s.records[newId := NewRecord(row, newId)],
                 log := s.log + [SubmissionEvent(SessionOf(s, id), newId)])
  {
    hide InsertsRecord, InsertsArtifact, NewRecord, Release;
  }

  lemma {:induction false} SubmitTables(s: State, id: nat, newId: string, h: Hashes)
    requires Inv(s, h) && SessionOf(s, id).SubmitUpdated? && newId !in s.records
    ensures var t := Step(s, CommitSubmit(id, newId), h); TablesAgree(t) && Continues(s, t)
  {
    SubmitNeverConflicts(s, id, newId, h);
    assert SessionAgrees(s, id, h);
    var row := SessionOf(s, id).artifact;
    assert NewRecord(row, newId) == NewRecord(s.artifacts[row.artifactId], newId);
    CommitSubmitEffect(s, id, newId, h);
    hide SessionAgrees, LogAgrees, TablesAgree, Continues, Step, NewRecord, InsertsRecord;
    RecordInserted(s, Step(s, CommitSubmit(id, newId), h), row.artifactId, newId);
  }

  lemma {:induction false} EventsExtended(s: State, t: State, e: Event, h: Hashes)
    requires LogAgrees(s, h) && Continues(s, t) && t.log == s.log + [e] && EventMatches(e, t, h)
    ensures forall i | 0 <= i < |t.log| :: EventMatches(t.log[i], t, h)
  {
    hide EventMatches, Continues, Submissions, Decisions, SubmittedBefore;
    forall i | 0 <= i < |t.log| ensures EventMatches(t.log[i], t, h) {
      if i < |s.log| {
        assert EventMatches(s.log[i], s, h);
        EventContinues(s, t, s.log[i], h);
      }
    }
  }

  /** A decision comes after the submission of its record. */
  lemma {:induction false} OrderExtended(s: State, t: State, e: Event, h: Hashes)
    requires LogAgrees(s, h) && t.log == s.log + [e]
    requires e.Decided? ==> e.approvalId in s.records
    ensures forall j | 0 <= j < |t.log| && t.log[j].Decided? :: SubmittedBefore(t.log, j, t.log[j].approvalId)
  {
    hide EventMatches;
    if e.Decided? { SubmissionsWitness(s.log, e.approvalId); }
    forall j | 0 <= j < |t.log| && t.log[j].Decided? ensures SubmittedBefore(t.log, j, t.log[j].approvalId) {
      if j < |s.log| { assert SubmittedBefore(s.log, j, s.log[j].approvalId); }
      var i :| 0 <= i < j && s.log[i].Submitted? && s.log[i].approvalId == t.log[j].approvalId;
      assert t.log[i] == s.log[i];
    }
  }

  lemma {:induction false} CountsExtended(log: seq<Event>, e: Event, r: string)
    ensures Submissions(log + [e], r) == Submissions(log, r) + (if e.Submitted? && e.approvalId == r then 1 else 0)
    ensures Decisions(log + [e], r) == Decisions(log, r) + (if e.Decided? && e.approvalId == r then 1 else 0)
  {
    assert (log + [e])[..|log + [e]| - 1] == log;
  }

  /** The event is about a record that had none of its kind before; no other record changes. */
  ghost predicate Concerns(e: Event, before: map<string, RecordRow>, after: map<string, RecordRow>) {
    && (e.Submitted? ==> e.approvalId !in before && after.Keys == before.Keys + {e.approvalId}
                         && after[e.approvalId].decision == Pending)
    && (e.Decided? ==> e.approvalId in before && after.Keys == before.Keys
                       && before[e.approvalId].decision == Pending && after[e.approvalId].decision != Pending)
    && forall r | r in before && r != e.approvalId :: r in after && after[r] == before[r]
  }

  lemma {:induction false} CountsFollow(
      log: seq<Event>, e: Event, before: map<string, RecordRow>, after: map<string, RecordRow>, r: string)
    requires Concerns(e, before, after)
    requires Submissions(log, r) == if r in before then 1 else 0
    requires Decisions(log, r) == if r in before && before[r].decision != Pending then 1 else 0
    ensures Submissions(log + [e], r) == if r in after then 1 else 0
    ensures Decisions(log + [e], r) == if r in after && after[r].decision != Pending then 1 else 0
  {
    CountsExtended(log, e, r);
    hide Submissions, Decisions;
  }

  /** A commit appends one event and keeps the history in agreement with the records. */
  lemma {:induction false} LogExtended(s: State, t: State, e: Event, h: Hashes)
    requires LogAgrees(s, h) && Continues(s, t) && t.log == s.log + [e] && EventMatches(e, t, h)
    requires Concerns(e, s.records, t.records)
    ensures LogAgrees(t, h)
  {
    EventsExtended(s, t, e, h);
    assert e.Decided? ==> e.approvalId in s.records;
    OrderExtended(s, t, e, h);
    hide EventMatches, Continues, SubmittedBefore, Submissions, Decisions, Concerns;
    forall r ensures && Submissions(t.log, r) == (if r in t.records then 1 else 0)
                     && Decisions(t.log, r) == if r in t.records && t.records[r].decision != Pending then 1 else 0
    {
      CountsFollow(s.log, e, s.records, t.records, r);
    }
  }

  lemma {:induction false} SubmitExtends(s: State, id: nat, newId: string, h: Hashes)
    requires SessionAgrees(s, id, h) && SessionOf(s, id).SubmitUpdated? && SessionOf(s, id).artifact.snapshot.Snapshot?
    requires SessionOf(s, id).artifact.artifactId in s.artifacts && newId !in s.records
    requires InsertsRecord(s.records, newId, SessionOf(s, id).artifact.artifactId)
    ensures var t, e := Step(s, CommitSubmit(id, newId), h), SubmissionEvent(SessionOf(s, id), newId);
            t.log == s.log + [e] && EventMatches(e, t, h) && Concerns(e, s.records, t.records)
  {
    CommitSubmitEffect(s, id, newId, h);
    hide Step, InsertsRecord;
  }

  lemma {:induction false} SubmitLog(s: State, id: nat, newId: string, h: Hashes)
    requires Inv(s, h) && SessionOf(s, id).SubmitUpdated? && newId !in s.records
    requires Continues(s, Step(s, CommitSubmit(id, newId), h))
    ensures LogAgrees(Step(s, CommitSubmit(id, newId), h), h)
  {
    hide SessionAgrees, TablesAgree, Continues, LogAgrees, Step, InsertsRecord, EventMatches, Concerns;
    SubmitNeverConflicts(s, id, newId, h);
    assert SessionAgrees(s, id, h);
    SubmitExtends(s, id, newId, h);
    LogExtended(s, Step(s, CommitSubmit(id, newId), h), SubmissionEvent(SessionOf(s, id), newId), h);
  }

  lemma {:induction false} SubmitSessions(s: State, id: nat, newId: string, h: Hashes, k: nat)
    requires Inv(s, h) && SessionOf(s, id).SubmitUpdated? && newId !in s.records
    requires Continues(s, Step(s, CommitSubmit(id, newId), h))
    ensures SessionAgrees(Step(s, CommitSubmit(id, newId), h), k, h)
  {
    SubmitNeverConflicts(s, id, newId, h);
    var t := Step(s, CommitSubmit(id, newId), h);
    assert SessionAgrees(s, id, h) && SessionAgrees(s, k, h);
    CommitSubmitEffect(s, id, newId, h);
    hide Step, InsertsRecord;
    if k != id {
      assert RespectsLocks(s, t, k);
      hide SessionAgrees, Continues, TablesAgree, LogAgrees;
      SessionContinues(s, t, h, k);
    }
  }

  lemma {:induction false} TakenIdentifier(s: State, id: nat, newId: string, h: Hashes)
    requires SessionOf(s, id).SubmitUpdated? && newId in s.records
    ensures Step(s, CommitSubmit(id, newId), h) == Release(s, id)
  {
    hide Release, NewRecord;
  }

  lemma {:induction false} CommitSubmitKeeps(s: State, id: nat, newId: string, h: Hashes)
    requires Inv(s, h) && SessionOf(s, id).SubmitUpdated?
    ensures Inv(Step(s, CommitSubmit(id, newId), h), h)
  {
    var t := Step(s, CommitSubmit(id, newId), h);
    hide SessionAgrees, LogAgrees, TablesAgree, Continues, Step;
    if newId in s.records {
      TakenIdentifier(s, id, newId, h);
      ReleaseKeeps(s, id, h);
    } else {
      SubmitTables(s, id, newId, h);
      SubmitLog(s, id, newId, h);
      forall k: nat ensures SessionAgrees(t, k, h) { SubmitSessions(s, id, newId, h, k); }
    }
  }

  /** The pending record `r` is decided; its artifact moves to the matching status. */
  ghost predicate Decides(s: State, t: State, r: RecordRow, decision: Decision, review: Review) {
    && Moves(s, t, r.artifactId, StatusOf(decision))
    && r.approvalId in s.records && s.records[r.approvalId] == r && r.decision == Pending != decision
    && t.records == s.records[r.approvalId := DecidedRecord(r, decision, review)]
  }

  lemma {:induction false} DecidedRecordsMatch(s: State, t: State, r: RecordRow, decision: Decision, review: Review)
    requires RecordsMatch(s) && OneRecordEach(s) && Decides(s, t, r, decision, review)
    ensures RecordsMatch(t) && Continues(s, t)
  {
    DecidedRecordMatches(s, t, r, decision, review);
    assert forall q | q in s.records && q != r.approvalId :: s.records[q].artifactId != r.artifactId;
    hide OneRecordEach, RecordShape, RecordMatches, StatusOf;
    forall q | q in t.records
      ensures && t.records[q].approvalId == q && RecordShape(t.records[q])
              && t.records[q].artifactId in t.artifacts
              && RecordMatches(t.records[q], t.artifacts[t.records[q].artifactId])
    {
      if q != r.approvalId { assert t.records[q] == s.records[q]; }
    }
    DecidedContinues(s, t, r, decision, review);
  }

  lemma {:induction false} DecidedRecordMatches(s: State, t: State, r: RecordRow, decision: Decision, review: Review)
    requires RecordsMatch(s) && Decides(s, t, r, decision, review)
    ensures var decided := t.records[r.approvalId];
            && decided.approvalId == r.approvalId && RecordShape(decided) && decided.artifactId in t.artifacts
            && RecordMatches(decided, t.artifacts[decided.artifactId])
  {
  }

  lemma {:induction false} DecidedContinues(s: State, t: State, r: RecordRow, decision: Decision, review: Review)
    requires Decides(s, t, r, decision, review)
    ensures Continues(s, t)
  {
    hide StatusOf;
  }

  lemma {:induction false} DecidedDrafts(s: State, t: State, r: RecordRow, decision: Decision, review: Review)
    requires DraftsUnrecorded(s) && Decides(s, t, r, decision, review)
    ensures DraftsUnrecorded(t)
  {
    forall x ensures HasRecord(t, x) <==> HasRecord(s, x) {
      if HasRecord(s, x) {
        var q :| q in s.records && s.records[q].artifactId == x;
        assert t.records[q].artifactId == x;
      }
      if HasRecord(t, x) {
        var q :| q in t.records && t.records[q].artifactId == x;
        assert s.records[q].artifactId == x;
      }
    }
    assert s.records[r.approvalId].artifactId == r.artifactId;
    assert HasRecord(s, r.artifactId);
  }

  lemma {:induction false} RecordDecided(s: State, t: State, r: RecordRow, decision: Decision, review: Review)
    requires TablesAgree(s) && Decides(s, t, r, decision, review)
    ensures TablesAgree(t) && Continues(s, t)
  {
    assert OneRecordEach(t);
    hide OneRecordEach, RecordsMatch, DraftsUnrecorded, Continues;
    DecidedRecordsMatch(s, t, r, decision, review);
    DecidedDrafts(s, t, r, decision, review);
  }

  function DecisionEvent(session: Session): Event
    requires session.DecideUpdated? && session.artifact.snapshot.Snapshot?
  {
    Decided(session.record.approvalId, session.record.artifactId, session.decision,
            session.artifact.snapshot.metricIr, session.artifact.snapshot.artifact.content)
  }

  /** A winning decision: its record decided, its artifact moved, its event, and nothing left locked. */
  lemma {:induction false} CommitDecideEffect(s: State, id: nat, h: Hashes)
    requires SessionOf(s, id).DecideUpdated? && SessionOf(s, id).artifact.snapshot.Snapshot?
    requires SessionOf(s, id).record.artifactId in s.artifacts && SessionOf(s, id).record.approvalId in s.records
    requires s.records[SessionOf(s, id).record.approvalId] == SessionOf(s, id).record
    ensures var session := SessionOf(s, id);
            var r := session.record;
            Step(s, CommitDecide(id), h)
            == Release(s, id).(
                 artifacts := s.artifacts[r.artifactId := s.artifacts[r.artifactId].(status := StatusOf(session.decision))],
                 records := s.records[r.approvalId := DecidedRecord(r, session.decision, session.review)],
                 log := s.log + [DecisionEvent(session)])
  {
    hide InsertsRecord, InsertsArtifact, NewRecord, Release, DecidedRecord, StatusOf;
  }

  lemma {:induction false} DecideTables(s: State, id: nat, h: Hashes)
    requires Inv(s, h) && SessionOf(s, id).DecideUpdated?
    ensures var t := Step(s, CommitDecide(id), h); TablesAgree(t) && Continues(s, t)
  {
    DecisionNeverStale(s, id, h);
    assert SessionAgrees(s, id, h);
    var session, t := SessionOf(s, id), Step(s, CommitDecide(id), h);
    var r := session.record;
    assert r.artifactId in s.artifacts && session.decision != Pending;
    CommitDecideEffect(s, id, h);
    hide SessionAgrees, LogAgrees, TablesAgree, Continues, Inv, Step, DecidedRecord, StatusOf;
    assert Decides(s, t, r, session.decision, session.review);
    RecordDecided(s, t, r, session.decision, session.review);
  }

  lemma {:induction false} DecideExtends(s: State, id: nat, h: Hashes)
    requires SessionAgrees(s, id, h) && SessionOf(s, id).DecideUpdated? && SessionOf(s, id).artifact.snapshot.Snapshot?
    requires SessionOf(s, id).record.approvalId in s.records
    requires s.records[SessionOf(s, id).record.approvalId] == SessionOf(s, id).record && RecordsMatch(s)
    ensures var t, e := Step(s, CommitDecide(id), h), DecisionEvent(SessionOf(s, id));
            t.log == s.log + [e] && EventMatches(e, t, h) && Concerns(e, s.records, t.records)
  {
  }

  lemma {:induction false} DecideLog(s: State, id: nat, h: Hashes)
    requires Inv(s, h) && SessionOf(s, id).DecideUpdated?
    requires Continues(s, Step(s, CommitDecide(id), h))
    ensures LogAgrees(Step(s, CommitDecide(id), h), h)
  {
    hide SessionAgrees, RecordsMatch, OneRecordEach, DraftsUnrecorded, Continues, LogAgrees, Step, EventMatches,
         Concerns;
    DecisionNeverStale(s, id, h);
    assert SessionAgrees(s, id, h);
    DecideExtends(s, id, h);
    LogExtended(s, Step(s, CommitDecide(id), h), DecisionEvent(SessionOf(s, id)), h);
  }

  lemma {:induction false} DecideSessions(s: State, id: nat, h: Hashes, k: nat)
    requires Inv(s, h) && SessionOf(s, id).DecideUpdated?
    requires Continues(s, Step(s, CommitDecide(id), h))
    ensures SessionAgrees(Step(s, CommitDecide(id), h), k, h)
  {
    hide TablesAgree, LogAgrees, Continues, SessionAgrees;
    DecisionNeverStale(s, id, h);
    assert SessionAgrees(s, id, h) && SessionAgrees(s, k, h);
    hide Inv;
    DecideRespectsLocks(s, id, h, k);
    hide Step, RespectsLocks;
    if k != id {
      SessionContinues(s, Step(s, CommitDecide(id), h), h, k);
    } else {
      IdleAgrees(Step(s, CommitDecide(id), h), id, h);
    }
  }

  lemma {:induction false} IdleAgrees(s: State, id: nat, h: Hashes)
    requires SessionOf(s, id) == Idle
    ensures SessionAgrees(s, id, h)
  {
  }

  lemma {:induction false} DecideRespectsLocks(s: State, id: nat, h: Hashes, k: nat)
    requires SessionAgrees(s, id, h) && SessionOf(s, id).DecideUpdated?
    ensures var t := Step(s, CommitDecide(id), h);
            && SessionOf(t, id) == Idle
            && (k != id ==> RespectsLocks(s, t, k) && SessionOf(t, k) == SessionOf(s, k))
  {
  }

  lemma {:induction false} CommitDecideKeeps(s: State, id: nat, h: Hashes)
    requires Inv(s, h) && SessionOf(s, id).DecideUpdated?
    ensures Inv(Step(s, CommitDecide(id), h), h)
  {
    var t := Step(s, CommitDecide(id), h);
    hide SessionAgrees, LogAgrees, TablesAgree, Continues, Step;
    DecideTables(s, id, h);
    DecideLog(s, id, h);
    forall k: nat ensures SessionAgrees(t, k, h) { DecideSessions(s, id, h, k); }
  }

  // ------------------------------------------------------------ every step, every run

  /** What a statement that only reads does: nothing, give up, or remember what it saw. */
  lemma {:induction false} ReadEffect(s: State, a: Action, h: Hashes)
    requires a.BeginSubmit? || a.BeginDecide? || a.CheckDecide?
    requires SessionAgrees(s, a.session, h) && RecordsMatch(s) && DraftsUnrecorded(s)
    ensures var t := Step(s, a, h);
            || t == s || t == Release(s, a.session)
            || (t == WithSession(s, a.session, SessionOf(t, a.session)) && SessionAgrees(t, a.session, h))
  {
    hide InsertsArtifact, InsertsRecord, NewRecord, DecidedRecord, ConditionalUpdate, Release, RowOf;
  }

  lemma {:induction false} ReadStepKeeps(s: State, a: Action, h: Hashes)
    requires Inv(s, h) && (a.BeginSubmit? || a.BeginDecide? || a.CheckDecide?)
    ensures Inv(Step(s, a, h), h)
  {
    hide Step, SessionAgrees, RecordsMatch, DraftsUnrecorded, OneRecordEach, LogAgrees, Release;
    var t := Step(s, a, h);
    assert SessionAgrees(s, a.session, h);
    ReadEffect(s, a, h);
    if t == Release(s, a.session) {
      ReleaseKeeps(s, a.session, h);
    } else if t != s {
      OtherSessionsKeep(s, t, a.session, h);
    }
  }

  /** An update that takes effect locks the row of its own session, whose status it found as expected. */
  lemma {:induction false} UpdateEffect(s: State, a: Action, h: Hashes)
    requires (a.UpdateSubmit? || a.UpdateDecide?) && SessionAgrees(s, a.session, h)
    ensures var id, t := a.session, Step(s, a, h);
            || t == s || t == Release(s, id)
            || (match SessionOf(s, id)
                case SubmitChecked(row) => Updates(s, t, id, row.artifactId, Draft, SubmitUpdated(row), h)
                case DecideChecked(decision, review, r, row) =>
                  Updates(s, t, id, r.artifactId, PendingReview, DecideUpdated(decision, review, r, row), h)
                case _ => false)
  {
    hide Release, InsertsArtifact, InsertsRecord, NewRecord, DecidedRecord, RowOf;
  }

  ghost predicate Updates(
      s: State, t: State, id: nat, artifactId: string, expected: Status, next: Session, h: Hashes)
  {
    && (artifactId !in s.locks || s.locks[artifactId] == id)
    && artifactId in s.artifacts && s.artifacts[artifactId].status == expected
    && SessionAgrees(WithSession(s, id, next).(locks := s.locks[artifactId := id]), id, h)
    && t == ConditionalUpdate(s, id, artifactId, expected, next)
  }

  lemma {:induction false} UpdateStepKeeps(s: State, a: Action, h: Hashes)
    requires Inv(s, h) && (a.UpdateSubmit? || a.UpdateDecide?)
    ensures Inv(Step(s, a, h), h)
  {
    var id := a.session;
    assert SessionAgrees(s, id, h);
    ReleaseKeeps(s, id, h);
    UpdateEffect(s, a, h);
    hide Step, Release, SessionAgrees, ConditionalUpdate, Inv;
    if Step(s, a, h) != s && Step(s, a, h) != Release(s, id) {
      match SessionOf(s, id)
      case SubmitChecked(row) => UpdateKeeps(s, id, row.artifactId, Draft, SubmitUpdated(row), h);
      case DecideChecked(decision, review, r, row) =>
        UpdateKeeps(s, id, r.artifactId, PendingReview, DecideUpdated(decision, review, r, row), h);
      case _ =>
    }
  }

  lemma {:induction false} StepKeeps(s: State, a: Action, h: Hashes)
    requires Inv(s, h)
    ensures Inv(Step(s, a, h), h)
  {
    hide Inv;
    match a
    case Save(snapshot) =>
      if snapshot.Snapshot? && InsertsArtifact(s.artifacts, RowOf(snapshot, h)) { SaveKeeps(s, snapshot, h); }
    case CommitSubmit(id, newId) => if SessionOf(s, id).SubmitUpdated? { CommitSubmitKeeps(s, id, newId, h); }
    case CommitDecide(id) => if SessionOf(s, id).DecideUpdated? { CommitDecideKeeps(s, id, h); }
    case Abort(id) => ReleaseKeeps(s, id, h);
    case Edit(artifactId, snapshot) => if artifactId in s.artifacts { EditKeeps(s, artifactId, snapshot, h); }
    case UpdateSubmit(_) => UpdateStepKeeps(s, a, h);
    case UpdateDecide(_) => UpdateStepKeeps(s, a, h);
    case _ => ReadStepKeeps(s, a, h);
  }

  /** Under any interleaving of submitters and deciders with stale reads, aborts and edits of
      stored snapshots, every reachable state satisfies the invariant. */
  lemma {:induction false} ReachableAgrees(actions: seq<Action>, h: Hashes)
    ensures Inv(Run(actions, h), h)
  {
    if actions != [] {
      ReachableAgrees(actions[..|actions| - 1], h);
      StepKeeps(Run(actions[..|actions| - 1], h), actions[|actions| - 1], h);
    }
  }

  // ------------------------------------------------------------ main results

  /** The two error branches after a won UPDATE are unreachable: with a fresh identifier the
      unique-artifact constraint never fires, and the version check never finds stale data. */
  lemma {:induction false} CommitsNeverFail(actions: seq<Action>, h: Hashes, id: nat, newId: string)
    ensures var s := Run(actions, h);
            && (SessionOf(s, id).SubmitUpdated? && newId !in s.records ==>
                  var row := SessionOf(s, id).artifact;
                  row.artifactId in s.artifacts && InsertsRecord(s.records, newId, row.artifactId))
            && (SessionOf(s, id).DecideUpdated? ==>
                  var r := SessionOf(s, id).record;
                  r.approvalId in s.records && s.records[r.approvalId].revision == r.revision)
  {
    ReachableAgrees(actions, h);
    var s := Run(actions, h);
    if SessionOf(s, id).SubmitUpdated? && newId !in s.records { SubmitNeverConflicts(s, id, newId, h); }
    if SessionOf(s, id).DecideUpdated? { DecisionNeverStale(s, id, h); }
  }

  lemma {:induction false} ContinuesUnchanged(s: State, t: State)
    requires t.artifacts == s.artifacts && t.records == s.records
    ensures Continues(s, t)
  {
  }

  lemma {:induction false} StepContinues(s: State, a: Action, h: Hashes)
    requires Inv(s, h)
    ensures Continues(s, Step(s, a, h))
  {
    var t := Step(s, a, h);
    hide Continues, TablesAgree, SessionAgrees, LogAgrees;
    if t.artifacts == s.artifacts && t.records == s.records {
      ContinuesUnchanged(s, t);
    } else {
      match a
      case Save(snapshot) => SaveTables(s, RowOf(snapshot, h));
      case Edit(artifactId, snapshot) => EditTables(s, artifactId, snapshot);
      case CommitSubmit(id, newId) => SubmitTables(s, id, newId, h);
      case CommitDecide(id) => DecideTables(s, id, h);
    }
  }

  lemma {:induction false} ContinuesTransitive(s: State, t: State, u: State)
    requires Continues(s, t) && Continues(t, u)
    ensures Continues(s, u)
  {
  }

  lemma {:induction false} RunContinues(actions: seq<Action>, more: seq<Action>, h: Hashes)
    ensures Continues(Run(actions, h), Run(actions + more, h))
  {
    hide Inv, Continues, Step;
    if more == [] {
      assert actions + more == actions;
      ContinuesUnchanged(Run(actions, h), Run(actions, h));
    } else {
      var front := more[..|more| - 1];
      RunContinues(actions, front, h);
      ReachableAgrees(actions + front, h);
      assert (actions + more)[..|actions + more| - 1] == actions + front;
      StepContinues(Run(actions + front, h), more[|more| - 1], h);
      ContinuesTransitive(Run(actions, h), Run(actions + front, h), Run(actions + more, h));
    }
  }

  /** Approved and rejected are absorbing: whatever runs next, a decided record never changes
      again and its artifact keeps the status of the decision. */
  lemma {:induction false} DecisionsAreFinal(actions: seq<Action>, more: seq<Action>, h: Hashes, approvalId: string)
    requires approvalId in Run(actions, h).records && Run(actions, h).records[approvalId].decision != Pending
    ensures var s, t := Run(actions, h), Run(actions + more, h);
            var r := s.records[approvalId];
            && approvalId in t.records && t.records[approvalId] == r
            && r.artifactId in t.artifacts && StatusTells(t.artifacts[r.artifactId].status, r.decision)
  {
    RunContinues(actions, more, h);
    ReachableAgrees(actions + more, h);
    hide Run;
  }

  /** In every reachable state an artifact is in review, approved or rejected exactly if a record of it
      is pending, approved or rejected, and a draft exactly if it has none. */
  lemma {:induction false} StatusFollowsRecord(actions: seq<Action>, h: Hashes, artifactId: string)
    requires artifactId in Run(actions, h).artifacts
    ensures var s := Run(actions, h);
            && (s.artifacts[artifactId].status == Draft <==> !HasRecord(s, artifactId))
            && (s.artifacts[artifactId].status == PendingReview <==> HasDecision(s, artifactId, Pending))
            && (s.artifacts[artifactId].status == StatusApproved <==> HasDecision(s, artifactId, Approved))
            && (s.artifacts[artifactId].status == StatusRejected <==> HasDecision(s, artifactId, Rejected))
  {
    ReachableAgrees(actions, h);
    var s := Run(actions, h);
    hide Run, SessionAgrees, LogAgrees;
    if r :| r in s.records && s.records[r].artifactId == artifactId {
      assert RecordMatches(s.records[r], s.artifacts[artifactId]);
      assert HasDecision(s, artifactId, s.records[r].decision);
    }
  }

  ghost predicate HasDecision(s: State, artifactId: string, decision: Decision) {
    exists r :: r in s.records && s.records[r].artifactId == artifactId && s.records[r].decision == decision
  }

  /** Per record the history holds exactly one submission and at most one decision, and the
      decision is there exactly when the record is decided. */
  lemma {:induction false} OneDecisionEach(actions: seq<Action>, h: Hashes, approvalId: string)
    ensures var s := Run(actions, h);
            && Submissions(s.log, approvalId) == (if approvalId in s.records then 1 else 0)
            && Decisions(s.log, approvalId)
               == (if approvalId in s.records && s.records[approvalId].decision != Pending then 1 else 0)
  {
    ReachableAgrees(actions, h);
  }

  lemma {:induction false} DecisionsWitness(log: seq<Event>, approvalId: string) returns (j: nat)
    requires Decisions(log, approvalId) > 0
    ensures j < |log| && log[j].Decided? && log[j].approvalId == approvalId
  {
    var last := log[|log| - 1];
    if last.Decided? && last.approvalId == approvalId {
      j := |log| - 1;
    } else {
      j := DecisionsWitness(log[..|log| - 1], approvalId);
    }
  }

  /** The history shows that exactly these documents were submitted and later approved. */
  ghost predicate ApprovedInHistory(
      log: seq<Event>, approvalId: string, artifactId: string, ir: MetricIr, content: Content) {
    exists i, j :: 0 <= i < j < |log|
      && log[i] == Submitted(approvalId, artifactId, ir, content)
      && log[j] == Decided(approvalId, artifactId, Approved, ir, content)
  }

  /** `require_approved` succeeds only for documents that were submitted and then approved in
      exactly their current form: an edit of the stored snapshot after review is caught. */
  lemma {:induction false} RequireApprovedSound(actions: seq<Action>, h: Hashes, approvalId: string, artifactId: string)
    requires Injective(h) && Requires(Run(actions, h), approvalId, artifactId, h)
    ensures var s := Run(actions, h);
            var current := s.artifacts[artifactId].snapshot;
            current.Snapshot? && ApprovedInHistory(s.log, approvalId, artifactId, current.metricIr, current.artifact.content)
  {
    var s := Run(actions, h);
    ReachableAgrees(actions, h);
    var j := DecisionsWitness(s.log, approvalId);
    assert EventMatches(s.log[j], s, h);
    assert SubmittedBefore(s.log, j, s.log[j].approvalId);
    var i :| 0 <= i < j && s.log[i].Submitted? && s.log[i].approvalId == approvalId;
    assert EventMatches(s.log[i], s, h);
    var current := s.artifacts[artifactId].snapshot;
    hide Run, Inv;
    assert h.ir(s.log[i].ir) == h.ir(current.metricIr) == h.ir(s.log[j].ir);
    assert h.content(s.log[i].content) == h.content(current.artifact.content) == h.content(s.log[j].content);
  }

  /** What verification refuses in an edited snapshot: another artifact, version, workflow run, metric
      name or recorded hash at once, and, as far as the two hashes tell documents apart, every
      difference but the flag that it passed validation. */
  lemma {:induction false} EditsRefused(
      row: ArtifactRow, edited: Snapshot, irHash: string, artifactHash: string, h: Hashes)
    requires Verifies(row, irHash, artifactHash, h)
    ensures var now := row.(snapshot := edited);
            Verifies(now, irHash, artifactHash, h) ==>
              && edited.Snapshot? && edited.workflowRunId == row.snapshot.workflowRunId
              && edited.metricIr.name == row.snapshot.metricIr.name
              && edited.artifact.artifactId == row.snapshot.artifact.artifactId
              && edited.artifact.contentHash == row.snapshot.artifact.contentHash
              && edited.artifact.content.artifactVersion == row.snapshot.artifact.content.artifactVersion
              && edited.artifact.content.metricName == row.snapshot.artifact.content.metricName
              && h.ir(edited.metricIr) == h.ir(row.snapshot.metricIr) == irHash
              && h.content(edited.artifact.content) == h.content(row.snapshot.artifact.content) == artifactHash
    ensures Injective(h) ==>
              (Verifies(row.(snapshot := edited), irHash, artifactHash, h)
               <==> edited.Snapshot? && edited == row.snapshot.(valid := edited.valid))
  {
    assert forall other: MetricIr | h.ir(other) == h.ir(row.snapshot.metricIr) && Injective(h) :: other == row.snapshot.metricIr;
    assert forall other: Content | h.content(other) == h.content(row.snapshot.artifact.content) && Injective(h) ::
        other == row.snapshot.artifact.content;
  }

  /** An edit of an approved artifact takes effect and is noticed: afterwards `require_approved` accepts
      it only if nothing but the validation flag differs. */
  lemma {:induction false} EditsAreCaught(
      actions: seq<Action>, h: Hashes, approvalId: string, artifactId: string, edited: Snapshot)
    requires Injective(h) && Requires(Run(actions, h), approvalId, artifactId, h)
    ensures var s, t := Run(actions, h), Run(actions + [Edit(artifactId, edited)], h);
            && artifactId in t.artifacts && t.artifacts[artifactId].snapshot == edited
            && s.artifacts[artifactId].snapshot.Snapshot?
            && (Requires(t, approvalId, artifactId, h)
                <==> edited.Snapshot? && edited == s.artifacts[artifactId].snapshot.(valid := edited.valid))
  {
    var s := Run(actions, h);
    assert (actions + [Edit(artifactId, edited)])[..|actions|] == actions;
    EditsRefused(s.artifacts[artifactId], edited, s.records[approvalId].irHash, s.records[approvalId].artifactHash, h);
    VerifiedReadable(s.artifacts[artifactId], s.records[approvalId].irHash, s.records[approvalId].artifactHash, h);
    hide Run, Verifies, Injective;
  }

  lemma {:induction false} VerifiedReadable(row: ArtifactRow, irHash: string, artifactHash: string, h: Hashes)
    requires Verifies(row, irHash, artifactHash, h)
    ensures row.snapshot.Snapshot?
  {
  }

  /** A saved draft verifies against the hashes of its own documents exactly when it records its
      content's hash and names its metric. */
  lemma {:induction false} DraftVerifiesExactly(snapshot: Snapshot, h: Hashes)
    requires snapshot.Snapshot?
    ensures var row, content := RowOf(snapshot, h), snapshot.artifact.content;
            && row.status == Draft && row.snapshot == snapshot
            && (Verifies(row, h.ir(snapshot.metricIr), h.content(content), h)
                <==> snapshot.artifact.contentHash == h.content(content) && content.metricName == snapshot.metricIr.name)
  {
    hide HasRecord;
  }

  /** An artifact that has been verified once, and not edited, verifies against its own columns. */
  ghost predicate VerifiedOnce(s: State, artifactId: string, h: Hashes) {
    artifactId in s.artifacts
    && (s.artifacts[artifactId].status != Draft || exists id: nat :: Submits(SessionOf(s, id), artifactId)) ==>
      Verifies(s.artifacts[artifactId], s.artifacts[artifactId].irHash, s.artifacts[artifactId].artifactHash, h)
  }

  ghost predicate Submits(session: Session, artifactId: string) {
    (session.SubmitChecked? || session.SubmitUpdated?) && session.artifact.artifactId == artifactId
  }

  lemma {:induction false} VerifiedStays(s: State, a: Action, h: Hashes, artifactId: string)
    requires Inv(s, h) && VerifiedOnce(s, artifactId, h) && !(a.Edit? && a.artifactId == artifactId)
    ensures VerifiedOnce(Step(s, a, h), artifactId, h)
  {
    var t := Step(s, a, h);
    hide Step, LogAgrees, Verifies;
    if artifactId in t.artifacts { RowStays(s, a, h, artifactId); }
    forall id: nat | Submits(SessionOf(s, id), artifactId) ensures artifactId in s.artifacts {
      assert SessionAgrees(s, id, h);
    }
    if id: nat :| Submits(SessionOf(t, id), artifactId) { CheckVerifies(s, a, h, artifactId, id); }
    hide Inv, Submits, TablesAgree;
    if artifactId in s.artifacts && artifactId in t.artifacts {
      SameVerification(s.artifacts[artifactId], t.artifacts[artifactId], h);
    }
  }

  lemma {:induction false} SameVerification(row: ArtifactRow, other: ArtifactRow, h: Hashes)
    requires row.(status := Draft) == other.(status := Draft)
    ensures Verifies(row, row.irHash, row.artifactHash, h) == Verifies(other, other.irHash, other.artifactHash, h)
  {
  }

  lemma {:induction false} CheckVerifies(s: State, a: Action, h: Hashes, artifactId: string, id: nat)
    requires DraftsUnrecorded(s) && Submits(SessionOf(Step(s, a, h), id), artifactId)
    ensures || Submits(SessionOf(s, id), artifactId)
            || (artifactId in s.artifacts
                && Verifies(s.artifacts[artifactId], s.artifacts[artifactId].irHash, s.artifacts[artifactId].artifactHash, h))
  {
    hide InsertsArtifact, InsertsRecord, NewRecord, DecidedRecord, RowOf, HasRecord, Verifies;
    if a.BeginSubmit? && a.session == id && !Submits(SessionOf(s, id), artifactId) {
      assert artifactId == a.artifactId;
      VerifiedOwn(s.artifacts[artifactId], a.irHash, a.artifactHash, h);
    }
  }

  lemma {:induction false} VerifiedOwn(row: ArtifactRow, irHash: string, artifactHash: string, h: Hashes)
    requires Verifies(row, irHash, artifactHash, h)
    ensures row.irHash == irHash && row.artifactHash == artifactHash
  {
  }

  /** Without an edit a row keeps what verification reads; it enters as a draft and leaves the drafts
      by the commit of a session that submits it. */
  lemma {:induction false} RowStays(s: State, a: Action, h: Hashes, artifactId: string)
    requires Inv(s, h) && !(a.Edit? && a.artifactId == artifactId) && artifactId in Step(s, a, h).artifacts
    ensures var row := Step(s, a, h).artifacts[artifactId];
            if artifactId in s.artifacts then
              && row.(status := Draft) == s.artifacts[artifactId].(status := Draft)
              && (s.artifacts[artifactId].status == Draft != row.status ==>
                    exists id: nat :: Submits(SessionOf(s, id), artifactId))
            else row.status == Draft
  {
    hide InsertsRecord, NewRecord, DecidedRecord, Verifies, Inv, SessionAgrees, TablesAgree, LogAgrees;
    match a
    case CommitSubmit(id, _) =>
      if Submits(SessionOf(s, id), artifactId) {
        assert exists id: nat :: Submits(SessionOf(s, id), artifactId);
      }
    case CommitDecide(id) => if SessionOf(s, id).DecideUpdated? { LockedInReview(s, id, h); }
    case _ =>
  }

  lemma {:induction false} LockedInReview(s: State, id: nat, h: Hashes)
    requires Inv(s, h) && SessionOf(s, id).DecideUpdated?
    ensures var r := SessionOf(s, id).record;
            r.artifactId in s.artifacts && s.artifacts[r.artifactId].status == PendingReview
  {
    hide TablesAgree, LogAgrees;
    assert SessionAgrees(s, id, h);
  }

  /** While nobody edits an artifact, `require_approved` accepts it exactly when its review ended in
      approval: what was submitted and approved stays usable. */
  lemma {:induction false} UneditedApprovalAccepted(
      actions: seq<Action>, h: Hashes, approvalId: string, artifactId: string)
    requires forall a | a in actions :: !(a.Edit? && a.artifactId == artifactId)
    ensures var s := Run(actions, h);
            Requires(s, approvalId, artifactId, h)
            <==> && approvalId in s.records && s.records[approvalId].artifactId == artifactId
                 && s.records[approvalId].decision == Approved
  {
    VerifiedRun(actions, h, artifactId);
    ReachableAgrees(actions, h);
    var s := Run(actions, h);
    hide Run, SessionAgrees, LogAgrees, Verifies, Submits;
    if approvalId in s.records && s.records[approvalId].artifactId == artifactId {
      assert RecordMatches(s.records[approvalId], s.artifacts[artifactId]);
    }
  }

  lemma {:induction false} VerifiedRun(actions: seq<Action>, h: Hashes, artifactId: string)
    requires forall a | a in actions :: !(a.Edit? && a.artifactId == artifactId)
    ensures VerifiedOnce(Run(actions, h), artifactId, h)
  {
    hide Step, Inv;
    if actions != [] {
      hide VerifiedOnce;
      var front := actions[..|actions| - 1];
      VerifiedRun(front, h, artifactId);
      ReachableAgrees(front, h);
      VerifiedStays(Run(front, h), actions[|actions| - 1], h, artifactId);
    }
  }

  /** A decider that verified a pending record of an unlocked artifact in review. */
  ghost predicate ReadyToDecide(s: State, id: nat) {
    && SessionOf(s, id).DecideChecked?
    && SessionOf(s, id).record.artifactId !in s.locks
    && SessionOf(s, id).record.artifactId in s.artifacts
    && s.artifacts[SessionOf(s, id).record.artifactId].status == PendingReview
  }

  lemma {:induction false} ReadyUpdates(s: State, h: Hashes, id: nat)
    requires ReadyToDecide(s, id)
    ensures var session, t := SessionOf(s, id), Step(s, UpdateDecide(id), h);
            && t == WithSession(s, id, DecideUpdated(session.decision, session.review, session.record, session.artifact))
                    .(locks := s.locks[session.record.artifactId := id])
  {
  }

  lemma {:induction false} CommitEffect(t: State, h: Hashes, id: nat)
    requires SessionOf(t, id).DecideUpdated? && SessionOf(t, id).artifact.snapshot.Snapshot?
    requires SessionOf(t, id).record.approvalId in t.records
    requires t.records[SessionOf(t, id).record.approvalId] == SessionOf(t, id).record
    requires SessionOf(t, id).record.artifactId in t.artifacts
    ensures var session, won := SessionOf(t, id), Step(t, CommitDecide(id), h);
            var r := session.record;
            && r.approvalId in won.records && won.records[r.approvalId].decision == session.decision
            && r.artifactId in won.artifacts && won.artifacts[r.artifactId].status == StatusOf(session.decision)
            && won.records[r.approvalId].artifactId == r.artifactId
            && (forall k: nat | k != id :: SessionOf(won, k) == SessionOf(t, k))
            && (forall a | a in won.locks :: a in t.locks && t.locks[a] == won.locks[a] != id)
  {
  }

  lemma {:induction false} SameArtifact(s: State, h: Hashes, i: nat, j: nat)
    requires Inv(s, h) && SessionOf(s, i).DecideChecked? && SessionOf(s, j).DecideChecked?
    requires SessionOf(s, i).record.approvalId == SessionOf(s, j).record.approvalId
    ensures SessionOf(s, i).record.artifactId == SessionOf(s, j).record.artifactId
  {
    hide TablesAgree, LogAgrees;
    assert SessionAgrees(s, i, h) && SessionAgrees(s, j, h);
  }

  lemma {:induction false} LateUpdateRollsBack(s: State, h: Hashes, id: nat)
    requires SessionOf(s, id).DecideChecked? && SessionOf(s, id).record.artifactId !in s.locks
    requires SessionOf(s, id).record.artifactId in s.artifacts ==>
               s.artifacts[SessionOf(s, id).record.artifactId].status != PendingReview
    ensures Step(s, UpdateDecide(id), h) == Release(s, id)
  {
  }

  lemma {:induction false} RunExtends(actions: seq<Action>, more: seq<Action>, h: Hashes)
    requires more != []
    ensures Run(actions + more, h) == Step(Run(actions + more[..|more| - 1], h), more[|more| - 1], h)
  {
    hide Step;
    assert (actions + more)[..|actions + more| - 1] == actions + more[..|more| - 1];
  }

  /** The statement is one of this session's own. */
  predicate ActsFor(a: Action, id: nat) { !a.Save? && !a.Edit? && a.session == id }

  /** Statements of others leave a session and its locks alone. */
  lemma {:induction false} OthersLeave(s: State, a: Action, h: Hashes, k: nat)
    requires !ActsFor(a, k)
    ensures var t := Step(s, a, h);
            && SessionOf(t, k) == SessionOf(s, k)
            && (forall x | x in s.locks && s.locks[x] == k :: x in t.locks && t.locks[x] == k)
  {
    hide InsertsArtifact, InsertsRecord, NewRecord, DecidedRecord, RowOf, Verifies;
  }

  /** A locked row blocks the UPDATE of any other session. */
  lemma {:induction false} LockBlocks(s: State, h: Hashes, id: nat)
    requires SessionOf(s, id).DecideChecked? && SessionOf(s, id).record.artifactId in s.locks
    requires s.locks[SessionOf(s, id).record.artifactId] != id
    ensures Step(s, UpdateDecide(id), h) == s
  {
  }

  /** No statement locks an artifact that is decided. */
  lemma {:induction false} NoLateLock(s: State, a: Action, h: Hashes, artifactId: string)
    requires artifactId !in s.locks && artifactId in s.artifacts
    requires s.artifacts[artifactId].status != Draft && s.artifacts[artifactId].status != PendingReview
    ensures artifactId !in Step(s, a, h).locks
  {
    hide InsertsArtifact, InsertsRecord, NewRecord, DecidedRecord, RowOf, Verifies;
  }

  /** One session holds the row that another one waits for. */
  ghost predicate Holds(s: State, winner: nat, won: Session, loser: nat, lost: Session, artifactId: string) {
    && SessionOf(s, winner) == won && SessionOf(s, loser) == lost && lost.DecideChecked?
    && lost.record.artifactId == artifactId && artifactId in s.locks && s.locks[artifactId] == winner
  }

  /** Statements of others, and further attempts of the waiting one, change nothing of it. */
  predicate LeavesHold(a: Action, winner: nat, loser: nat) {
    !ActsFor(a, winner) && (ActsFor(a, loser) ==> a == UpdateDecide(loser))
  }

  lemma {:induction false} HoldStays(
      s: State, a: Action, h: Hashes, winner: nat, won: Session, loser: nat, lost: Session, artifactId: string)
    requires winner != loser && Holds(s, winner, won, loser, lost, artifactId) && LeavesHold(a, winner, loser)
    ensures Holds(Step(s, a, h), winner, won, loser, lost, artifactId)
  {
    hide Step;
    OthersLeave(s, a, h, winner);
    if ActsFor(a, loser) { LockBlocks(s, h, loser); } else { OthersLeave(s, a, h, loser); }
  }

  lemma {:induction false} HoldLasts(
      before: seq<Action>, between: seq<Action>, h: Hashes,
      winner: nat, won: Session, loser: nat, lost: Session, artifactId: string)
    requires winner != loser && Holds(Run(before, h), winner, won, loser, lost, artifactId)
    requires forall a | a in between :: LeavesHold(a, winner, loser)
    ensures Holds(Run(before + between, h), winner, won, loser, lost, artifactId)
    decreases |between|
  {
    hide Run, Step, Holds, LeavesHold;
    if between == [] {
      assert before + between == before;
    } else {
      var prefix := between[..|between| - 1];
      HoldLasts(before, prefix, h, winner, won, loser, lost, artifactId);
      RunExtends(before, between, h);
      HoldStays(Run(before + prefix, h), between[|between| - 1], h, winner, won, loser, lost, artifactId);
    }
  }

  /** After the decision the row stays unlocked and a waiting session stays as it is. */
  lemma {:induction false} DecidedStaysFree(
      before: seq<Action>, after: seq<Action>, h: Hashes, approvalId: string, loser: nat)
    requires approvalId in Run(before, h).records && Run(before, h).records[approvalId].decision != Pending
    requires Run(before, h).records[approvalId].artifactId !in Run(before, h).locks
    requires forall a | a in after :: !ActsFor(a, loser)
    ensures Run(before, h).records[approvalId].artifactId !in Run(before + after, h).locks
    ensures SessionOf(Run(before + after, h), loser) == SessionOf(Run(before, h), loser)
    decreases |after|
  {
    hide Run, Step, SessionOf;
    if after == [] {
      assert before + after == before;
    } else {
      var prefix, last := after[..|after| - 1], after[|after| - 1];
      DecidedStaysFree(before, prefix, h, approvalId, loser);
      DecisionsAreFinal(before, prefix, h, approvalId);
      RunExtends(before, after, h);
      OthersLeave(Run(before + prefix, h), last, h, loser);
      NoLateLock(Run(before + prefix, h), last, h, Run(before, h).records[approvalId].artifactId);
    }
  }

  /** The winner's UPDATE takes the row that the other decider is ready for. */
  lemma {:induction false} WinnerHolds(before: seq<Action>, h: Hashes, winner: nat, loser: nat) returns (won: Session)
    requires winner != loser && ReadyToDecide(Run(before, h), winner) && ReadyToDecide(Run(before, h), loser)
    requires SessionOf(Run(before, h), winner).record.approvalId == SessionOf(Run(before, h), loser).record.approvalId
    ensures var s, r := Run(before, h), SessionOf(Run(before, h), winner).record;
            && won.DecideUpdated? && won.record == r && won.decision == SessionOf(s, winner).decision
            && Holds(Run(before + [UpdateDecide(winner)], h), winner, won, loser, SessionOf(s, loser), r.artifactId)
  {
    var s := Run(before, h);
    var session := SessionOf(s, winner);
    won := DecideUpdated(session.decision, session.review, session.record, session.artifact);
    ReachableAgrees(before, h);
    RunExtends(before, [UpdateDecide(winner)], h);
    assert [UpdateDecide(winner)][..0] == [] && before + [] == before;
    hide Run, Step, Inv;
    SameArtifact(s, h, winner, loser);
    ReadyUpdates(s, h, winner);
  }

  /** The winner's commit decides the record and frees the row. */
  lemma {:induction false} WinnerCommits(
      before: seq<Action>, h: Hashes, winner: nat, won: Session, loser: nat, lost: Session)
    requires winner != loser && won.DecideUpdated?
    requires Holds(Run(before, h), winner, won, loser, lost, won.record.artifactId)
    ensures var t, r := Run(before + [CommitDecide(winner)], h), won.record;
            && r.approvalId in t.records && t.records[r.approvalId].decision == won.decision != Pending
            && t.records[r.approvalId].artifactId == r.artifactId && r.artifactId !in t.locks
            && SessionOf(t, loser) == lost
  {
    ReachableAgrees(before, h);
    RunExtends(before, [CommitDecide(winner)], h);
    assert [CommitDecide(winner)][..0] == [] && before + [] == before;
    hide Run, Step;
    DecisionNeverStale(Run(before, h), winner, h);
    hide TablesAgree, LogAgrees;
    assert SessionAgrees(Run(before, h), winner, h);
    hide Inv, SessionAgrees;
    CommitEffect(Run(before, h), h, winner);
  }

  /** Of racing deciders the first to win the UPDATE decides, whatever runs before its commit and
      after it. Until the commit every other decider of the record that had verified it waits
      without effect; after it, its UPDATE is rolled back without effect, and the decision stands. */
  lemma {:induction false} FirstDecisionWins(
      before: seq<Action>, between: seq<Action>, after: seq<Action>, h: Hashes, winner: nat, loser: nat)
    requires winner != loser
    requires ReadyToDecide(Run(before, h), winner) && ReadyToDecide(Run(before, h), loser)
    requires SessionOf(Run(before, h), winner).record.approvalId == SessionOf(Run(before, h), loser).record.approvalId
    requires forall a | a in between :: LeavesHold(a, winner, loser)
    requires forall a | a in after :: !ActsFor(a, loser)
    ensures var session := SessionOf(Run(before, h), winner);
            var r := session.record;
            var held := Run(before + [UpdateDecide(winner)] + between, h);
            var t := Run(before + [UpdateDecide(winner)] + between + [CommitDecide(winner)] + after, h);
            && Step(held, UpdateDecide(loser), h) == held
            && r.approvalId in t.records && t.records[r.approvalId].decision == session.decision
            && r.artifactId in t.artifacts && StatusTells(t.artifacts[r.artifactId].status, session.decision)
            && Step(t, UpdateDecide(loser), h) == Release(t, loser)
  {
    var lost, r := SessionOf(Run(before, h), loser), SessionOf(Run(before, h), winner).record;
    var holding := before + [UpdateDecide(winner)] + between;
    var decided := holding + [CommitDecide(winner)];
    hide Run, Step, ReadyToDecide, LeavesHold, ActsFor, Release;
    var won := WinnerHolds(before, h, winner, loser);
    HoldLasts(before + [UpdateDecide(winner)], between, h, winner, won, loser, lost, r.artifactId);
    LockBlocks(Run(holding, h), h, loser);
    WinnerCommits(holding, h, winner, won, loser, lost);
    DecisionsAreFinal(decided, after, h, r.approvalId);
    DecidedStaysFree(decided, after, h, r.approvalId, loser);
    LateUpdateRollsBack(Run(decided + after, h), h, loser);
  }
}
