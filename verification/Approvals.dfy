/** The approval protocol (src/airi/approvals/service.py) as statements of concurrent database
    sessions. A session reads rows, verifies their hashes, runs a conditional UPDATE that takes
    the row lock, and commits or rolls back; between any two statements other sessions run, so
    what a session read may be stale. */
module Approvals {
  import opened Documents
  import opened Options

  // ------------------------------------------------------------ stored documents

  datatype Artifact = Artifact(artifactId: string, content: Content, contentHash: string)

  /** The JSON snapshot of a generated artifact; `Unreadable` fails schema validation. */
  datatype Snapshot =
    | Unreadable
    | Snapshot(artifact: Artifact, metricIr: MetricIr, workflowRunId: string, valid: bool)

  /** `canonical_hash` of a metric IR and `artifact_content_hash` of an artifact. */
  datatype Hashes = Hashes(ir: MetricIr -> string, content: Content -> string)

  ghost predicate Injective(h: Hashes) {
    && (forall a, b :: h.ir(a) == h.ir(b) ==> a == b)
    && (forall a, b :: h.content(a) == h.content(b) ==> a == b)
  }

  datatype Status = Draft | PendingReview | StatusApproved | StatusRejected

  datatype Decision = Pending | Approved | Rejected

  datatype ArtifactRow = ArtifactRow(
    artifactId: string, workflowRunId: string, version: string, metricName: string,
    irHash: string, artifactHash: string, status: Status, snapshot: Snapshot)

  datatype RecordRow = RecordRow(
    approvalId: string, workflowRunId: string, artifactId: string, version: string, metricName: string,
    irHash: string, artifactHash: string, reviewer: Option<string>, comment: Option<string>,
    decision: Decision, revision: nat)

  datatype Review = Review(reviewer: string, comment: string)

  function StatusOf(d: Decision): (status: Status)
    ensures status != Draft && (status == StatusApproved <==> d == Approved) && (status == StatusRejected <==> d == Rejected)
  {
    match d
    case Pending => PendingReview
    case Approved => StatusApproved
    case Rejected => StatusRejected
  }

  /** `_verify`: every stored hash and identifier still matches the reviewed ones. */
  predicate Verifies(row: ArtifactRow, irHash: string, artifactHash: string, h: Hashes) {
    match row.snapshot
    case Unreadable => false
    case Snapshot(artifact, metricIr, workflowRunId, _) =>
      && h.ir(metricIr) == row.irHash == irHash
      && h.content(artifact.content) == row.artifactHash == artifactHash == artifact.contentHash
      && artifact.artifactId == row.artifactId
      && artifact.content.artifactVersion == row.version
      && workflowRunId == row.workflowRunId
      && artifact.content.metricName == row.metricName == metricIr.name
  }

  // ------------------------------------------------------------ the shared store

  /** What happened, with the documents the acting session had verified. */
  datatype Event =
    | Submitted(approvalId: string, artifactId: string, ir: MetricIr, content: Content)
    | Decided(approvalId: string, artifactId: string, decision: Decision, ir: MetricIr, content: Content)

  datatype Session =
    | Idle
    | SubmitChecked(artifact: ArtifactRow)
    | SubmitUpdated(artifact: ArtifactRow)
    | DecideRead(decision: Decision, review: Review, record: RecordRow)
    | DecideChecked(decision: Decision, review: Review, record: RecordRow, artifact: ArtifactRow)
    | DecideUpdated(decision: Decision, review: Review, record: RecordRow, artifact: ArtifactRow)

  /** Committed tables, row locks by artifact, open sessions, and the history of commits. */
  datatype State = State(
    artifacts: map<string, ArtifactRow>, records: map<string, RecordRow>,
    locks: map<string, nat>, sessions: map<nat, Session>, log: seq<Event>)

  const EMPTY := State(map[], map[], map[], map[], [])

  datatype Action =
    | Save(snapshot: Snapshot)
    | BeginSubmit(session: nat, artifactId: string, irHash: string, artifactHash: string)
    | UpdateSubmit(session: nat)
    | CommitSubmit(session: nat, newId: string)
    | BeginDecide(session: nat, approvalId: string, decision: Decision, review: Review)
    | CheckDecide(session: nat)
    | UpdateDecide(session: nat)
    | CommitDecide(session: nat)
    | Abort(session: nat)
    | Edit(artifactId: string, snapshot: Snapshot)

  function SessionOf(s: State, id: nat): Session {
    if id in s.sessions then s.sessions[id] else Idle
  }

  function WithSession(s: State, id: nat, session: Session): State {
    s.(sessions := s.sessions[id := session])
  }

  /** Ends a session: its locks are released and its uncommitted changes are gone. */
  function Release(s: State, id: nat): State {
    s.(sessions := s.sessions[id := Idle], locks := map a | a in s.locks && s.locks[a] != id :: s.locks[a])
  }

  function RowOf(snapshot: Snapshot, h: Hashes): ArtifactRow
    requires snapshot.Snapshot?
  {
    ArtifactRow(snapshot.artifact.artifactId, snapshot.workflowRunId, snapshot.artifact.content.artifactVersion,
                snapshot.metricIr.name, h.ir(snapshot.metricIr), snapshot.artifact.contentHash, Draft, snapshot)
  }

  /** Primary key and unique workflow run of the artifact table. */
  predicate InsertsArtifact(artifacts: map<string, ArtifactRow>, row: ArtifactRow) {
    row.artifactId !in artifacts && forall a | a in artifacts :: artifacts[a].workflowRunId != row.workflowRunId
  }

  /** Primary key and unique artifact of the record table. */
  predicate InsertsRecord(records: map<string, RecordRow>, approvalId: string, artifactId: string) {
    approvalId !in records && forall r | r in records :: records[r].artifactId != artifactId
  }

  function NewRecord(row: ArtifactRow, approvalId: string): RecordRow {
    RecordRow(approvalId, row.workflowRunId, row.artifactId, row.version, row.metricName,
              row.irHash, row.artifactHash, None, None, Pending, 1)
  }

  function DecidedRecord(record: RecordRow, decision: Decision, review: Review): RecordRow {
    record.(decision := decision, reviewer := Some(review.reviewer), comment := Some(review.comment),
            revision := record.revision + 1)
  }

  /** The UPDATE ... WHERE status = expected: blocked by a foreign lock, otherwise it locks the
      row when the committed status matches and rolls the session back when it does not. */
  function ConditionalUpdate(s: State, id: nat, artifactId: string, expected: Status, next: Session): State {
    if artifactId in s.locks && s.locks[artifactId] != id then s
    else if artifactId !in s.artifacts || s.artifacts[artifactId].status != expected then Release(s, id)
    else WithSession(s, id, next).(locks := s.locks[artifactId := id])
  }

  function Step(s: State, a: Action, h: Hashes): State {
    match a
    case Save(snapshot) =>
      if snapshot.Snapshot? && InsertsArtifact(s.artifacts, RowOf(snapshot, h))
      then s.(artifacts := s.artifacts[snapshot.artifact.artifactId := RowOf(snapshot, h)])
      else s
    case BeginSubmit(id, artifactId, irHash, artifactHash) =>
      if SessionOf(s, id).Idle? && artifactId in s.artifacts
         && Verifies(s.artifacts[artifactId], irHash, artifactHash, h) && s.artifacts[artifactId].snapshot.valid
      then WithSession(s, id, SubmitChecked(s.artifacts[artifactId]))
      else s
    case UpdateSubmit(id) =>
      (match SessionOf(s, id)
       case SubmitChecked(row) => ConditionalUpdate(s, id, row.artifactId, Draft, SubmitUpdated(row))
       case _ => s)
    case CommitSubmit(id, newId) =>
      (match SessionOf(s, id)
       case SubmitUpdated(row) =>
         if row.artifactId in s.artifacts && InsertsRecord(s.records, newId, row.artifactId) && row.snapshot.Snapshot?
         then Release(s, id).(
                artifacts := s.artifacts[row.artifactId := s.artifacts[row.artifactId].(status := PendingReview)],
                records := s.records[newId := NewRecord(row, newId)],
                log := s.log + [Submitted(newId, row.artifactId, row.snapshot.metricIr, row.snapshot.artifact.content)])
         else Release(s, id)
       case _ => s)
    case BeginDecide(id, approvalId, decision, review) =>
      if SessionOf(s, id).Idle? && decision != Pending && approvalId in s.records
      then WithSession(s, id, DecideRead(decision, review, s.records[approvalId]))
      else s
    case CheckDecide(id) =>
      (match SessionOf(s, id)
       case DecideRead(decision, review, record) =>
         if record.artifactId in s.artifacts
            && Verifies(s.artifacts[record.artifactId], record.irHash, record.artifactHash, h)
            && record.decision == Pending
         then WithSession(s, id, DecideChecked(decision, review, record, s.artifacts[record.artifactId]))
         else Release(s, id)
       case _ => s)
    case UpdateDecide(id) =>
      (match SessionOf(s, id)
       case DecideChecked(decision, review, record, row) =>
         ConditionalUpdate(s, id, record.artifactId, PendingReview, DecideUpdated(decision, review, record, row))
       case _ => s)
    case CommitDecide(id) =>
      (match SessionOf(s, id)
       case DecideUpdated(decision, review, record, row) =>
         if record.artifactId in s.artifacts && record.approvalId in s.records
            && s.records[record.approvalId].revision == record.revision && row.snapshot.Snapshot?
         then Release(s, id).(
                artifacts := s.artifacts[record.artifactId := s.artifacts[record.artifactId].(status := StatusOf(decision))],
                records := s.records[record.approvalId := DecidedRecord(record, decision, review)],
                log := s.log + [Decided(record.approvalId, record.artifactId, decision,
                                        row.snapshot.metricIr, row.snapshot.artifact.content)])
         else Release(s, id)
       case _ => s)
    case Abort(id) => Release(s, id)
    case Edit(artifactId, snapshot) =>
      if artifactId in s.artifacts
      then s.(artifacts := s.artifacts[artifactId := s.artifacts[artifactId].(snapshot := snapshot)])
      else s
  }

  /** Any interleaving of any number of sessions: the state after a run from the empty store. */
  function Run(actions: seq<Action>, h: Hashes): State {
    if actions == [] then EMPTY else Step(Run(actions[..|actions| - 1], h), actions[|actions| - 1], h)
  }

  /** `require_approved` on committed tables. */
  predicate Requires(s: State, approvalId: string, artifactId: string, h: Hashes) {
    && approvalId in s.records && s.records[approvalId].artifactId == artifactId
    && artifactId in s.artifacts
    && Verifies(s.artifacts[artifactId], s.records[approvalId].irHash, s.records[approvalId].artifactHash, h)
    && s.records[approvalId].decision == Approved && s.artifacts[artifactId].status == StatusApproved
  }
}
