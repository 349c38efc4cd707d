/**
  Where each call of the record workflow leads, by the names of the statuses, and what must have happened for a
  submission or a record to be where it is.
 */
module WorkflowLaws {
  import opened Common
  import opened StatusMachine
  import opened Workflow
  import opened WorkflowTheorems

  // ------------------------------------------------------------------------------------------
  // The status machine
  // ------------------------------------------------------------------------------------------

  /** A transition is refused exactly if it stays, revives what was sold or declined, or puts back what was sold. */
  lemma {:induction false} TransitionsAreRefusedIff(record: EquipmentRecord, to: Status)
    ensures Transition(record, to).Err? <==>
              || to == record.status
              || (record.status == Declined && to == NewRequest)
              || (record.status == Sold && (to == NewRequest || to == Listed || to == AppraisalScheduled))
    ensures Transition(record, to).Err? ==> Transition(record, to).error == Conflict
  {
  }

  /** Over every run, no timeline revives a sold or declined record. */
  lemma {:induction false} NothingIsRevived(s: State, ops: seq<Op>, r: nat, k: nat)
    requires AllAccounted(s) && r < |Run(s, ops).records| && k < |Run(s, ops).records[r].log|
    ensures var event := Run(s, ops).records[r].log[k];
            && event.from != event.to
            && (event.from == Declined ==> event.to != NewRequest)
            && (event.from == Sold ==> event.to != NewRequest && event.to != Listed && event.to != AppraisalScheduled)
  {
    TimelinesArePaths(s, ops);
    var record := Run(s, ops).records[r];
    assert Accounted(record);
    assert IsMove(NewRequest, record.log, k);
  }

  // ------------------------------------------------------------------------------------------
  // Where the calls lead
  // ------------------------------------------------------------------------------------------

  /** Record `r` has moved to the status, with exactly that event logged; the other records are as they were. */
  predicate Moved(s: State, t: State, r: nat, to: Status) {
    && r < |s.records| == |t.records|
    && t.records[r] == s.records[r].(status := to, log := s.records[r].log + [StatusEvent(s.records[r].status, to)])
    && forall q :: 0 <= q < |s.records| && q != r ==> t.records[q] == s.records[q]
  }

  /** The submission has the new status and is otherwise as it was, like all others. */
  predicate Marked(s: State, t: State, id: nat, status: SubmissionStatus) {
    && id < |s.submissions| && t.submissions == s.submissions[id := s.submissions[id].(status := status)]
  }

  /** A submit sends the record to `appraisal_complete`, keeps the title hold, and needs a draft with its photos. */
  lemma {:induction false} SubmitLeads(s: State, op: Op)
    requires op.Submit? && WellFormed(s)
    ensures Call(s, op).Ok? <==>
              && op.id < |s.submissions| && op.allowed && s.submissions[op.id].status == Draft && op.photosComplete
              && s.records[s.submissions[op.id].recordId].status != AppraisalComplete
    ensures Call(s, op).Ok? ==>
              && Moved(s, Step(s, op), s.submissions[op.id].recordId, AppraisalComplete)
              && Step(s, op).submissions ==
                 s.submissions[op.id := s.submissions[op.id].(status := Submitted, titleHold := op.titleHold)]
              && Step(s, op).contracts == s.contracts
  {
  }

  /** An approval sends the record to `approved_pending_esign`, once a title hold is confirmed. */
  lemma {:induction false} ApproveLeads(s: State, op: Op)
    requires op.Approve? && WellFormed(s)
    ensures Call(s, op).Ok? <==>
              && op.id < |s.submissions| && s.submissions[op.id].status == Submitted
              && (s.submissions[op.id].titleHold ==> op.titleConfirmed)
              && s.records[s.submissions[op.id].recordId].status != ApprovedPendingEsign
    ensures Call(s, op).Ok? ==>
              && Moved(s, Step(s, op), s.submissions[op.id].recordId, ApprovedPendingEsign)
              && Marked(s, Step(s, op), op.id, Approved)
  {
  }

  /** A rejection sends the record back to `new_request` or on to `declined`. */
  lemma {:induction false} RejectLeads(s: State, op: Op)
    requires op.Reject? && WellFormed(s)
    ensures Call(s, op).Ok? ==>
              && s.submissions[op.id].status == Submitted && Marked(s, Step(s, op), op.id, Rejected)
              && Moved(s, Step(s, op), s.submissions[op.id].recordId, if op.sendBack then NewRequest else Declined)
              && Step(s, op).contracts == s.contracts
    ensures op.id < |s.submissions| && s.submissions[op.id].status == Submitted ==>
              (s.records[s.submissions[op.id].recordId].status == AppraisalComplete ==> Call(s, op).Ok?)
  {
  }

  /** Row `c` is the one contract with the envelope. */
  predicate OnlyContract(s: State, envelope: Envelope, c: nat) {
    && c < |s.contracts| && s.contracts[c].envelope == envelope
    && forall i :: 0 <= i < |s.contracts| && i != c ==> s.contracts[i].envelope != envelope
  }

  lemma {:induction false} OnlyContractIsFound(s: State, envelope: Envelope, c: nat, n: nat)
    requires OnlyContract(s, envelope, c) && n <= |s.contracts|
    ensures WithEnvelope(s.contracts, envelope, n) == if c < n then [c] else []
  {
    if n > 0 {
      OnlyContractIsFound(s, envelope, c, n - 1);
      assert s.contracts[n - 1].envelope == envelope <==> n - 1 == c;
    }
  }

  /**
    The first signature completes the contract, with its time, and sends the record to `esigned_pending_publish`; it
    is refused only if the record is there already.
   */
  lemma {:induction false} SignatureLeads(s: State, op: Op, c: nat)
    requires op.EnvelopeCompleted? && WellFormed(s) && OnlyContract(s, op.envelope, c)
    requires s.contracts[c].status != Completed
    ensures var r := s.contracts[c].recordId;
            && (Call(s, op).Ok? <==> s.records[r].status != EsignedPendingPublish)
            && (Call(s, op).Ok? ==>
                  && Moved(s, Step(s, op), r, EsignedPendingPublish) && Step(s, op).submissions == s.submissions
                  && Step(s, op).contracts ==
                     s.contracts[c := s.contracts[c].(status := Completed, signedAt := Some(op.at))])
  {
    OnlyContractIsFound(s, op.envelope, c, |s.contracts|);
  }

  /** A declined signature marks the contract and leaves the record at `approved_pending_esign`, moved if need be. */
  lemma {:induction false} DeclineLeads(s: State, op: Op, c: nat)
    requires op.EnvelopeDeclined? && WellFormed(s) && OnlyContract(s, op.envelope, c)
    requires s.contracts[c].status != Refused
    ensures var r, t := s.contracts[c].recordId, Step(s, op);
            && Call(s, op).Ok? && t.contracts == s.contracts[c := s.contracts[c].(status := Refused)]
            && t.submissions == s.submissions && |t.records| == |s.records|
            && t.records[r].status == ApprovedPendingEsign
            && (if s.records[r].status == ApprovedPendingEsign then t.records == s.records
                else Moved(s, t, r, ApprovedPendingEsign))
  {
    OnlyContractIsFound(s, op.envelope, c, |s.contracts|);
  }

  // ------------------------------------------------------------------------------------------
  // What must have happened
  // ------------------------------------------------------------------------------------------

  /** The record's timeline has a move to the status. */
  ghost predicate Reached(record: EquipmentRecord, to: Status) {
    exists k :: 0 <= k < |record.log| && record.log[k].to == to
  }

  /** A signed contract has sent its record to `esigned_pending_publish`. */
  ghost predicate SignedRecordsWereSent(s: State) {
    && WellFormed(s)
    && forall c :: 0 <= c < |s.contracts| && s.contracts[c].status == Completed ==>
         Reached(s.records[s.contracts[c].recordId], EsignedPendingPublish)
  }

  lemma ReachedStays(before: EquipmentRecord, after: EquipmentRecord, to: Status)
    requires Reached(before, to) && before.log <= after.log
    ensures Reached(after, to)
  {
    var k :| 0 <= k < |before.log| && before.log[k].to == to;
    assert after.log[k] == before.log[k];
  }

  lemma LogsGrow(s: State, op: Op)
    ensures |Step(s, op).records| == |s.records|
    ensures forall r :: 0 <= r < |s.records| ==> s.records[r].log <= Step(s, op).records[r].log
  {
    StepMovesRecords(s, op);
  }

  lemma SigningSends(s: State, op: Op, c: nat)
    requires op.EnvelopeCompleted? && WellFormed(s) && FetchContract(s.contracts, op.envelope) == Ok(c)
    requires s.contracts[c].status != Completed && Call(s, op).Ok?
    ensures s.contracts[c].recordId < |Step(s, op).records|
    ensures Reached(Step(s, op).records[s.contracts[c].recordId], EsignedPendingPublish)
  {
    var record := Step(s, op).records[s.contracts[c].recordId];
    assert record.log[|record.log| - 1].to == EsignedPendingPublish;
  }

  /** Only a signature completes a contract. */
  lemma OnlySigningCompletes(s: State, op: Op, c: nat)
    requires WellFormed(s) && c < |Step(s, op).contracts| && Step(s, op).contracts[c].status == Completed
    ensures || (c < |s.contracts| && s.contracts[c].status == Completed
                && s.contracts[c].recordId == Step(s, op).contracts[c].recordId)
            || (op.EnvelopeCompleted? && FetchContract(s.contracts, op.envelope) == Ok(c) && Call(s, op).Ok?
                && s.contracts[c].status != Completed && s.contracts[c].recordId == Step(s, op).contracts[c].recordId)
  {
  }

  lemma StepSendsSignedRecords(s: State, op: Op)
    requires SignedRecordsWereSent(s)
    ensures SignedRecordsWereSent(Step(s, op))
  {
    var t := Step(s, op);
    StepKeepsWellFormed(s, op);
    LogsGrow(s, op);
    forall c | 0 <= c < |t.contracts| && t.contracts[c].status == Completed
      ensures Reached(t.records[t.contracts[c].recordId], EsignedPendingPublish)
    {
      OnlySigningCompletes(s, op, c);
      var r := t.contracts[c].recordId;
      if c < |s.contracts| && s.contracts[c].status == Completed && s.contracts[c].recordId == r {
        ReachedStays(s.records[r], t.records[r], EsignedPendingPublish);
      } else {
        SigningSends(s, op, c);
      }
    }
  }

  /** Over every run, the record of every signed contract has been sent to `esigned_pending_publish`. */
  lemma {:induction false} RunsSendSignedRecords(s: State, ops: seq<Op>)
    requires SignedRecordsWereSent(s)
    ensures SignedRecordsWereSent(Run(s, ops))
  {
    if ops != [] {
      RunsSendSignedRecords(s, ops[..|ops| - 1]);
      StepSendsSignedRecords(Run(s, ops[..|ops| - 1]), ops[|ops| - 1]);
    }
  }

  /** One of the calls submitted the draft, with access, complete photos and this title hold. */
  ghost predicate WasSubmitted(ops: seq<Op>, id: nat, titleHold: bool) {
    exists k :: 0 <= k < |ops| && ops[k] == Submit(id, true, true, titleHold)
  }

  ghost predicate WasApproved(ops: seq<Op>, id: nat, titleHold: bool) {
    exists k :: 0 <= k < |ops| && ops[k].Approve? && ops[k].id == id && (titleHold ==> ops[k].titleConfirmed)
  }

  ghost predicate WasRejected(ops: seq<Op>, id: nat) {
    exists k :: 0 <= k < |ops| && ops[k].Reject? && ops[k].id == id
  }

  /** The submission's status has its reasons among the calls. */
  ghost predicate Explained(sub: Submission, ops: seq<Op>, id: nat) {
    && (sub.status != Draft ==> WasSubmitted(ops, id, sub.titleHold))
    && (sub.status == Approved ==> WasApproved(ops, id, sub.titleHold))
    && (sub.status == Rejected ==> WasRejected(ops, id))
  }

  lemma ReasonsStay(sub: Submission, ops: seq<Op>, op: Op, id: nat)
    requires Explained(sub, ops, id)
    ensures Explained(sub, ops + [op], id)
  {
    var all := ops + [op];
    if sub.status != Draft {
      var k :| 0 <= k < |ops| && ops[k] == Submit(id, true, true, sub.titleHold);
      assert all[k] == Submit(id, true, true, sub.titleHold);
    }
    if sub.status == Approved {
      var k :| 0 <= k < |ops| && ops[k].Approve? && ops[k].id == id && (sub.titleHold ==> ops[k].titleConfirmed);
      assert all[k] == ops[k];
    }
    if sub.status == Rejected {
      var k :| 0 <= k < |ops| && ops[k].Reject? && ops[k].id == id;
      assert all[k] == ops[k];
    }
  }

  /** What one call can do to a submission. */
  lemma SubmissionStep(s: State, op: Op, id: nat)
    requires id < |Step(s, op).submissions|
    ensures var after := Step(s, op).submissions[id];
            if id >= |s.submissions| then after.status == Draft
            else
              var before := s.submissions[id];
              || after == before
              || (op == Submit(id, true, true, after.titleHold) && after.status == Submitted)
              || (after == before.(status := Approved) && op.Approve? && op.id == id
                  && before.status == Submitted && (before.titleHold ==> op.titleConfirmed))
              || (after == before.(status := Rejected) && op.Reject? && op.id == id && before.status == Submitted)
  {
  }

  lemma StepExplains(s: State, ops: seq<Op>, op: Op, id: nat)
    requires id < |Step(s, op).submissions|
    requires id < |s.submissions| ==> Explained(s.submissions[id], ops, id)
    ensures Explained(Step(s, op).submissions[id], ops + [op], id)
  {
    SubmissionStep(s, op, id);
    var all, after := ops + [op], Step(s, op).submissions[id];
    assert all[|ops|] == op;
    if id < |s.submissions| {
      ReasonsStay(s.submissions[id], ops, op, id);
    }
  }

  /**
    Over every run from fresh records: a submission that has left the draft was submitted with complete photos, and its
    title hold is the one recorded then; an approved one was approved, with a title hold confirmed; a rejected one was
    rejected.
   */
  lemma {:induction false} SubmissionsPassTheGates(s: State, ops: seq<Op>, id: nat)
    requires Initial(s) && id < |Run(s, ops).submissions|
    ensures Explained(Run(s, ops).submissions[id], ops, id)
  {
    if ops != [] {
      var n := |ops| - 1;
      var before := Run(s, ops[..n]);
      if id < |before.submissions| {
        SubmissionsPassTheGates(s, ops[..n], id);
      }
      StepExplains(before, ops[..n], ops[n], id);
      assert ops[..n] + [ops[n]] == ops;
    }
  }

  // ------------------------------------------------------------------------------------------
  // One draft per record
  // ------------------------------------------------------------------------------------------

  ghost predicate OneDraftEach(s: State) {
    forall r: nat :: CountAll(s.submissions, r, Draft) <= 1
  }

  lemma DraftsAppend(s: State, op: Op, r: nat)
    requires op.CreateDraft? && Call(s, op).Ok?
    ensures CountAll(Step(s, op).submissions, r, Draft) ==
            CountAll(s.submissions, r, Draft) + if r == op.record then 1 else 0
  {
    CountAppend(s.submissions, Submission(op.record, op.appraiser, Draft, false), r, Draft, |s.submissions|);
  }

  lemma DraftsShrink(s: State, op: Op, r: nat)
    requires op.Submit? || op.Approve? || op.Reject?
    ensures CountAll(Step(s, op).submissions, r, Draft) <= CountAll(s.submissions, r, Draft)
  {
    if Call(s, op).Ok? {
      SubmissionStep(s, op, op.id);
      var sub := Step(s, op).submissions[op.id];
      assert Step(s, op).submissions == s.submissions[op.id := sub];
      CountUpdate(s.submissions, op.id, sub, r, Draft, |s.submissions|);
    }
  }

  /** A draft is created exactly if its record exists and has none. */
  lemma {:induction false} DraftLeads(s: State, op: Op)
    requires op.CreateDraft?
    ensures Call(s, op).Ok? <==> op.record < |s.records| && CountAll(s.submissions, op.record, Draft) == 0
    ensures Call(s, op).Ok? ==>
              Step(s, op) == s.(submissions := s.submissions + [Submission(op.record, op.appraiser, Draft, false)])
  {
  }

  /** Over every run, a record has at most one draft. */
  lemma {:induction false} RunsKeepOneDraft(s: State, ops: seq<Op>)
    requires OneDraftEach(s)
    ensures OneDraftEach(Run(s, ops))
  {
    if ops != [] {
      var n := |ops| - 1;
      RunsKeepOneDraft(s, ops[..n]);
      var before, op := Run(s, ops[..n]), ops[n];
      forall r: nat ensures CountAll(Step(before, op).submissions, r, Draft) <= 1 {
        assert CountAll(before.submissions, r, Draft) <= 1;
        if op.CreateDraft? && Call(before, op).Ok? {
          DraftsAppend(before, op, r);
        } else if op.Submit? || op.Approve? || op.Reject? {
          DraftsShrink(before, op, r);
        }
      }
    }
  }

  // ------------------------------------------------------------------------------------------
  // Dispatching
  // ------------------------------------------------------------------------------------------

  /** The record has a contract that was not declined. */
  predicate Outstanding(s: State, record: nat) {
    exists c | 0 <= c < |s.contracts| :: s.contracts[c].recordId == record && s.contracts[c].status != Refused
  }

  predicate HasContract(s: State, record: nat) {
    exists c | 0 <= c < |s.contracts| :: s.contracts[c].recordId == record
  }

  /**
    A dispatch leaves an outstanding contract alone, and does nothing without exactly one approved submission and a
    customer. Otherwise it sends one contract, under the new envelope and unsigned, in the row of the declined one if
    there is one.
   */
  lemma {:induction false} DispatchLeads(s: State, op: Op)
    requires op.Dispatch? && op.record < |s.records| && OneContractEach(s)
    ensures var t, sent := Step(s, op), Contract(op.record, op.dispatching.envelope, AwaitingSignature, Option.None);
            && t.records == s.records && t.submissions == s.submissions
            && (if Outstanding(s, op.record) || CountAll(s.submissions, op.record, Approved) != 1
                   || !op.dispatching.customerFound
                then t == s
                else if HasContract(s, op.record) then
                  exists c :: 0 <= c < |s.contracts| && s.contracts[c].recordId == op.record
                              && t.contracts == s.contracts[c := sent]
                else t.contracts == s.contracts + [sent])
  {
    var c := ContractOf(s.contracts, op.record, |s.contracts|);
    forall i | c.Some? && 0 <= i < |s.contracts| && s.contracts[i].recordId == op.record ensures c == Some(i) {}
  }

  // ------------------------------------------------------------------------------------------
  // Errors, and records that are missing
  // ------------------------------------------------------------------------------------------

  /** 404 for an unknown submission or envelope, 422 for one's own lack of access, and 409 for the rest. */
  lemma {:induction false} DecisionErrors(s: State, op: Op)
    requires WellFormed(s) && (op.Submit? || op.Approve? || op.Reject?)
    ensures Call(s, op) == Err(NotFound) <==> |s.submissions| <= op.id
    ensures Call(s, op) == Err(Unprocessable) <==> op.Submit? && op.id < |s.submissions| && !op.allowed
    ensures Call(s, op).Err? ==> Call(s, op).error in {NotFound, Unprocessable, Conflict}
  {
  }

  /** Where the record is missing, a submit and the callbacks write their own row, and a review is refused. */
  lemma {:induction false} MissingRecords(s: State, op: Op)
    requires op.Submit? || op.Approve? || op.Reject?
    requires op.id < |s.submissions| && |s.records| <= s.submissions[op.id].recordId
    ensures op.Submit? && op.allowed && op.photosComplete && s.submissions[op.id].status == Draft ==>
              && Call(s, op).Ok? && Step(s, op).records == s.records
              && Step(s, op).submissions[op.id].status == Submitted
    ensures op.Reject? && s.submissions[op.id].status == Submitted ==> Call(s, op) == Err(NotFound)
    ensures op.Approve? && s.submissions[op.id].status == Submitted && !s.submissions[op.id].titleHold ==>
              Call(s, op) == Err(NotFound)
  {
  }

  lemma {:induction false} MissingRecordsOfContracts(s: State, op: Op, c: nat)
    requires op.EnvelopeCompleted? || op.EnvelopeDeclined?
    requires OnlyContract(s, op.envelope, c) && |s.records| <= s.contracts[c].recordId
    requires s.contracts[c].status == AwaitingSignature
    ensures Call(s, op).Ok? && Step(s, op).records == s.records
    ensures Step(s, op).contracts[c].status == if op.EnvelopeCompleted? then Completed else Refused
  {
    OnlyContractIsFound(s, op.envelope, c, |s.contracts|);
  }
}
