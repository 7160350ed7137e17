/** The operations of `ApprovalService` (src/airi/approvals/service.py) on the stored tables, run
    by one caller at a time. Each is proved to have exactly the effect of its statements in the
    interleaved protocol, so what `ApprovalLaws` proves of all interleavings holds of it. */
module ApprovalServices {
  import opened Documents
  import opened Options
  import opened Approvals
  import opened ApprovalLaws

  datatype Error = NotFound | ArtifactChanged | StateError

  /** The statements of one session, executed without interruption. */
  function Steps(s: State, actions: seq<Action>, h: Hashes): State
    decreases |actions|
  {
    if actions == [] then s else Steps(Step(s, actions[0], h), actions[1..], h)
  }

  function SubmitSteps(artifactId: string, irHash: string, artifactHash: string, newId: string): seq<Action> {
    [BeginSubmit(0, artifactId, irHash, artifactHash), UpdateSubmit(0), CommitSubmit(0, newId)]
  }

  function DecideSteps(approvalId: string, decision: Decision, review: Review): seq<Action> {
    [BeginDecide(0, approvalId, decision, review), CheckDecide(0), UpdateDecide(0), CommitDecide(0)]
  }

  lemma {:induction false} StepsUnfold(s: State, a: Action, rest: seq<Action>, h: Hashes)
    ensures Steps(s, [a] + rest, h) == Steps(Step(s, a, h), rest, h)
  {
    assert ([a] + rest)[1..] == rest;
  }

  lemma {:induction false} ThreeSteps(s: State, a: Action, b: Action, c: Action, h: Hashes)
    ensures Steps(s, [a, b, c], h) == Step(Step(Step(s, a, h), b, h), c, h)
  {
    hide Step;
    assert [a, b, c] == [a] + ([b] + ([c] + []));
    StepsUnfold(s, a, [b] + ([c] + []), h);
    StepsUnfold(Step(s, a, h), b, [c] + [], h);
    StepsUnfold(Step(Step(s, a, h), b, h), c, [], h);
  }

  lemma {:induction false} FourSteps(s: State, a: Action, b: Action, c: Action, d: Action, h: Hashes)
    ensures Steps(s, [a, b, c, d], h) == Step(Step(Step(Step(s, a, h), b, h), c, h), d, h)
  {
    hide Step;
    assert [a, b, c, d] == [a] + [b, c, d];
    StepsUnfold(s, a, [b, c, d], h);
    ThreeSteps(Step(s, a, h), b, c, d, h);
  }

  predicate CanSubmit(s: State, artifactId: string, irHash: string, artifactHash: string, h: Hashes) {
    && artifactId in s.artifacts && Verifies(s.artifacts[artifactId], irHash, artifactHash, h)
    && s.artifacts[artifactId].snapshot.valid && s.artifacts[artifactId].status == Draft
  }

  /** What the statements of an uninterrupted submission do to the tables. */
  lemma {:induction false} SubmitEffect(
      s: State, artifactId: string, irHash: string, artifactHash: string, newId: string, h: Hashes)
    requires s.locks == map[] && s.sessions == map[]
    requires artifactId in s.artifacts ==> s.artifacts[artifactId].artifactId == artifactId
    requires CanSubmit(s, artifactId, irHash, artifactHash, h) ==> InsertsRecord(s.records, newId, artifactId)
    ensures var t := Steps(s, SubmitSteps(artifactId, irHash, artifactHash, newId), h);
            if CanSubmit(s, artifactId, irHash, artifactHash, h) then
              && t.artifacts == s.artifacts[artifactId := s.artifacts[artifactId].(status := PendingReview)]
              && t.records == s.records[newId := NewRecord(s.artifacts[artifactId], newId)]
            else t.artifacts == s.artifacts && t.records == s.records
  {
    ThreeSteps(s, BeginSubmit(0, artifactId, irHash, artifactHash), UpdateSubmit(0), CommitSubmit(0, newId), h);
    hide Steps;
    var read := Step(s, BeginSubmit(0, artifactId, irHash, artifactHash), h);
    if artifactId in s.artifacts && Verifies(s.artifacts[artifactId], irHash, artifactHash, h)
       && s.artifacts[artifactId].snapshot.valid {
      assert SessionOf(read, 0) == SubmitChecked(s.artifacts[artifactId]);
    } else {
      assert read == s && SessionOf(read, 0) == Idle;
    }
  }

  predicate CanDecide(s: State, approvalId: string, h: Hashes) {
    && approvalId in s.records && s.records[approvalId].decision == Pending
    && var record := s.records[approvalId];
       record.artifactId in s.artifacts && Verifies(s.artifacts[record.artifactId], record.irHash, record.artifactHash, h)
  }

  /** What the statements of an uninterrupted decision do to the tables. */
  lemma {:induction false} DecideEffect(s: State, approvalId: string, decision: Decision, review: Review, h: Hashes)
    requires s.locks == map[] && s.sessions == map[] && decision != Pending
    requires approvalId in s.records ==> s.records[approvalId].approvalId == approvalId
    requires CanDecide(s, approvalId, h) ==> s.artifacts[s.records[approvalId].artifactId].status == PendingReview
    ensures var t := Steps(s, DecideSteps(approvalId, decision, review), h);
            if CanDecide(s, approvalId, h) then
              var record := s.records[approvalId];
              && t.artifacts == s.artifacts[record.artifactId := s.artifacts[record.artifactId].(status := StatusOf(decision))]
              && t.records == s.records[approvalId := DecidedRecord(record, decision, review)]
            else t.artifacts == s.artifacts && t.records == s.records
  {
    FourSteps(s, BeginDecide(0, approvalId, decision, review), CheckDecide(0), UpdateDecide(0), CommitDecide(0), h);
    hide Steps;
    var read := Step(s, BeginDecide(0, approvalId, decision, review), h);
    var checked := Step(read, CheckDecide(0), h);
    if approvalId in s.records {
      assert SessionOf(read, 0) == DecideRead(decision, review, s.records[approvalId]);
      if CanDecide(s, approvalId, h) {
        var record := s.records[approvalId];
        assert SessionOf(checked, 0) == DecideChecked(decision, review, record, s.artifacts[record.artifactId]);
      } else {
        assert SessionOf(checked, 0) == Idle;
      }
    } else {
      assert SessionOf(checked, 0) == Idle;
    }
  }

  /** What a decision writes. */
  lemma {:induction false} DecidedFields(record: RecordRow, decision: Decision, review: Review)
    requires RecordShape(record) && record.decision == Pending != decision
    ensures var decided := DecidedRecord(record, decision, review);
            && decided.decision == decision && decided.artifactId == record.artifactId
            && decided.reviewer == Some(review.reviewer) && decided.comment == Some(review.comment) && decided.revision == 2
            && decided.(decision := Pending, reviewer := None, comment := None, revision := 1) == record
    ensures StatusTells(StatusOf(decision), decision)
  {
  }

  /** The tables that the statements of a finished session leave to the next one. */
  function Committed(s: State): State { s.(locks := map[], sessions := map[]) }

  /** Submitting a draft with its own hashes and deciding its record makes `require_approved` accept it
      exactly if the decision was an approval. */
  lemma {:induction false} DecidedIsAccepted(
      s: State, artifactId: string, irHash: string, artifactHash: string, newId: string,
      decision: Decision, review: Review, h: Hashes)
    requires s.locks == map[] && s.sessions == map[] && TablesAgree(s) && newId !in s.records && decision != Pending
    requires CanSubmit(s, artifactId, irHash, artifactHash, h)
    ensures var submitted := Committed(Steps(s, SubmitSteps(artifactId, irHash, artifactHash, newId), h));
            var decided := Steps(submitted, DecideSteps(newId, decision, review), h);
            && artifactId in submitted.artifacts && submitted.artifacts[artifactId].status == PendingReview
            && !Requires(submitted, newId, artifactId, h)
            && (Requires(decided, newId, artifactId, h) <==> decision == Approved)
  {
    var row := s.artifacts[artifactId];
    assert row.artifactId == artifactId && !HasRecord(s, artifactId);
    SubmitEffect(s, artifactId, irHash, artifactHash, newId, h);
    hide Step, Steps, TablesAgree, HasRecord;
    var submitted := Committed(Steps(s, SubmitSteps(artifactId, irHash, artifactHash, newId), h));
    assert submitted.records[newId] == NewRecord(row, newId);
    SameVerification(row, submitted.artifacts[artifactId], h);
    VerifiedOwn(row, irHash, artifactHash, h);
    assert CanDecide(submitted, newId, h);
    DecideEffect(submitted, newId, decision, review, h);
    hide Verifies;
    DecidedFields(NewRecord(row, newId), decision, review);
  }

  class ApprovalService {
    const h: Hashes
    var artifacts: map<string, ArtifactRow>
    var records: map<string, RecordRow>

    constructor (h: Hashes)
      ensures Valid()
      ensures this.h == h && artifacts == map[] && records == map[]
    {
      this.h := h;
      artifacts, records := map[], map[];
      new;
      EmptyAgrees();
    }

    /** The committed tables as a protocol state without open sessions. */
    function Store(): State
      reads this
    {
      State(artifacts, records, map[], map[], [])
    }

    ghost predicate Valid()
      reads this
    {
      TablesAgree(Store())
    }

    method SaveDraft(snapshot: Snapshot) returns (ok: bool)
      requires Valid() && snapshot.Snapshot?
      modifies this
      ensures Valid()
      ensures ok <==> && snapshot.artifact.artifactId !in old(artifacts)
                      && forall a | a in old(artifacts) :: old(artifacts)[a].workflowRunId != snapshot.workflowRunId
      ensures ok ==> && snapshot.artifact.artifactId in artifacts
                     && artifacts[snapshot.artifact.artifactId].status == Draft
                     && artifacts[snapshot.artifact.artifactId].snapshot == snapshot
      ensures artifacts == Step(old(Store()), Save(snapshot), h).artifacts && records == old(records)
    {
      var row := RowOf(snapshot, h);
      ok := InsertsArtifact(artifacts, row);
      if ok {
        SaveTables(Store(), row);
        hide TablesAgree;
        artifacts := artifacts[row.artifactId := row];
      }
    }

    method Submit(artifactId: string, irHash: string, artifactHash: string, newId: string)
      returns (r: Result<RecordRow, Error>)
      requires Valid() && newId !in records
      modifies this
      ensures Valid()
      ensures var t := Steps(old(Store()), SubmitSteps(artifactId, irHash, artifactHash, newId), h);
              artifacts == t.artifacts && records == t.records
      ensures r.Err? ==> artifacts == old(artifacts) && records == old(records)
      ensures r == Err(NotFound) <==> artifactId !in old(artifacts)
      ensures r == Err(ArtifactChanged)
              <==> artifactId in old(artifacts) && !Verifies(old(artifacts)[artifactId], irHash, artifactHash, h)
      ensures r.Ok?
              <==> artifactId in old(artifacts) && Verifies(old(artifacts)[artifactId], irHash, artifactHash, h)
                   && old(artifacts)[artifactId].snapshot.valid && old(artifacts)[artifactId].status == Draft
      ensures r.Ok? ==>
                && artifactId in artifacts && artifacts[artifactId].status == PendingReview
                && newId in records && records[newId] == r.value && r.value.decision == Pending
                && r.value.irHash == irHash && r.value.artifactHash == artifactHash && r.value.artifactId == artifactId
                && r.value.reviewer == None && r.value.comment == None && r.value.revision == 1
    {
      assert artifactId in artifacts && artifacts[artifactId].status == Draft ==> InsertsRecord(records, newId, artifactId) by {
        if artifactId in artifacts && artifacts[artifactId].status == Draft { assert !HasRecord(Store(), artifactId); }
      }
      SubmitEffect(Store(), artifactId, irHash, artifactHash, newId, h);
      hide TablesAgree, Step, Steps, Verifies;
      if artifactId !in artifacts { return Err(NotFound); }
      var row := artifacts[artifactId];
      if !Verifies(row, irHash, artifactHash, h) { return Err(ArtifactChanged); }
      if !row.snapshot.valid { return Err(StateError); }
      if artifacts[artifactId].status != Draft { return Err(StateError); }
      ghost var before := Store();
      artifacts := artifacts[artifactId := row.(status := PendingReview)];
      // The integrity error of a second submission cannot occur here: a draft has no record.
      assert InsertsRecord(records, newId, artifactId);
      records := records[newId := NewRecord(row, newId)];
      RecordInserted(before, Store(), artifactId, newId);
      r := Ok(records[newId]);
    }

    method Decide(approvalId: string, decision: Decision, review: Review) returns (r: Result<RecordRow, Error>)
      requires Valid()
      modifies this
      ensures Valid()
      ensures decision != Pending ==>
                var t := Steps(old(Store()), DecideSteps(approvalId, decision, review), h);
                artifacts == t.artifacts && records == t.records
      ensures r.Err? ==> artifacts == old(artifacts) && records == old(records)
      ensures r == Err(NotFound) <==> decision != Pending && approvalId !in old(records)
      ensures r.Ok?
              <==> decision != Pending && approvalId in old(records) && old(records)[approvalId].decision == Pending
                   && var record := old(records)[approvalId];
                      Verifies(old(artifacts)[record.artifactId], record.irHash, record.artifactHash, h)
      ensures r.Ok? ==>
                && approvalId in records && records[approvalId] == r.value
                && r.value.decision == decision && r.value.reviewer == Some(review.reviewer)
                && r.value.comment == Some(review.comment) && r.value.revision == 2
                && r.value.(decision := Pending, reviewer := None, comment := None, revision := 1) == old(records)[approvalId]
                && r.value.artifactId in artifacts
                && (artifacts[r.value.artifactId].status == StatusApproved <==> decision == Approved)
                && (artifacts[r.value.artifactId].status == StatusRejected <==> decision == Rejected)
    {
      if decision == Pending { return Err(StateError); }
      DecideEffect(Store(), approvalId, decision, review, h);
      if approvalId !in records { return Err(NotFound); }
      var record := records[approvalId];
      assert record.approvalId == approvalId && RecordMatches(record, artifacts[record.artifactId]);
      hide TablesAgree, Step, Steps, Verifies;
      if record.decision == Pending { DecidedFields(record, decision, review); }
      hide DecidedRecord, StatusOf;
      var row := artifacts[record.artifactId];
      if !Verifies(row, record.irHash, record.artifactHash, h) { return Err(ArtifactChanged); }
      if record.decision != Pending { return Err(StateError); }
      ghost var before := Store();
      artifacts := artifacts[record.artifactId := row.(status := StatusOf(decision))];
      records := records[approvalId := DecidedRecord(record, decision, review)];
      RecordDecided(before, Store(), record, decision, review);
      r := Ok(records[approvalId]);
    }

    method RequireApproved(approvalId: string, artifactId: string) returns (r: Result<RecordRow, Error>)
      requires Valid()
      ensures r.Ok? <==> Requires(Store(), approvalId, artifactId, h)
      ensures r.Ok? ==> r.value == records[approvalId]
    {
      if approvalId !in records { return Err(NotFound); }
      var record := records[approvalId];
      if record.artifactId != artifactId { return Err(ArtifactChanged); }
      if artifactId !in artifacts { return Err(NotFound); }
      var row := artifacts[artifactId];
      if !Verifies(row, record.irHash, record.artifactHash, h) { return Err(ArtifactChanged); }
      if record.decision != Approved || row.status != StatusApproved { return Err(StateError); }
      r := Ok(record);
    }
  }

  lemma {:induction false} EmptyAgrees()
    ensures TablesAgree(EMPTY)
  {
  }
}
