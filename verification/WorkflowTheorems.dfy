/** What the services that share a record's status keep together, over every run. */
module WorkflowTheorems {
  import opened Common
  import opened StatusMachine
  import opened Workflow

  // ------------------------------------------------------------------------------------------
  // The status timeline is a path
  // ------------------------------------------------------------------------------------------

  ghost predicate AllAccounted(s: State) {
    forall r :: 0 <= r < |s.records| ==> Accounted(s.records[r])
  }

  /** A record is left alone, makes one permitted transition, or is reverted by a cancellation. */
  predicate RecordMoved(before: EquipmentRecord, after: EquipmentRecord) {
    after == before || after == RevertOnCancel(before) || Transition(before, after.status) == Ok(after)
  }

  lemma PathAppend(initial: Status, log: seq<StatusEvent>, e: StatusEvent)
    requires IsPath(initial, log) && e.from != e.to && !IsForbiddenTransition(e.from, e.to)
    requires Continues(LastTarget(initial, log), e.from)
    ensures IsPath(initial, log + [e])
  {
    var longer := log + [e];
    forall k | 0 <= k < |longer| ensures IsMove(initial, longer, k) {
      if k < |log| {
        assert IsMove(initial, log, k);
        assert longer[..k] == log[..k];
      } else {
        assert longer[..k] == log;
      }
    }
  }

  lemma MoveKeepsPath(before: EquipmentRecord, after: EquipmentRecord)
    requires Accounted(before) && RecordMoved(before, after)
    ensures Accounted(after)
  {
    if Transition(before, after.status) == Ok(after) {
      PathAppend(NewRequest, before.log, StatusEvent(before.status, after.status));
    }
  }

  lemma StepMovesRecords(s: State, op: Op)
    ensures |Step(s, op).records| == |s.records|
    ensures forall r :: 0 <= r < |s.records| ==> RecordMoved(s.records[r], Step(s, op).records[r])
  {
  }

  /**
    Over every run of every caller, each record's timeline is a path: real, permitted moves that link up except for
    the one edge a cancellation leaves out, and whose end, up to that edge, is the record's status.
   */
  lemma {:induction false} TimelinesArePaths(s: State, ops: seq<Op>)
    requires AllAccounted(s)
    ensures AllAccounted(Run(s, ops)) && |Run(s, ops).records| == |s.records|
  {
    if ops != [] {
      var n := |ops| - 1;
      TimelinesArePaths(s, ops[..n]);
      var before := Run(s, ops[..n]);
      StepMovesRecords(before, ops[n]);
      forall r | 0 <= r < |s.records| ensures Accounted(Step(before, ops[n]).records[r]) {
        MoveKeepsPath(before.records[r], Step(before, ops[n]).records[r]);
      }
    }
  }

  /** The gap is real: schedule, cancel, schedule logs two events, the second not starting where the first ended. */
  lemma CancelLeavesAGap(s: State)
    requires |s.records| > 0 && s.records[0].status == NewRequest && s.records[0].log == []
    ensures |Run(s, [Schedule(0), CancelAppointment(0), Schedule(0)]).records| > 0
    ensures Run(s, [Schedule(0), CancelAppointment(0), Schedule(0)]).records[0].log
            == [StatusEvent(NewRequest, AppraisalScheduled), StatusEvent(NewRequest, AppraisalScheduled)]
  {
    var ops := [Schedule(0), CancelAppointment(0), Schedule(0)];
    assert ops[..2] == [Schedule(0), CancelAppointment(0)];
    assert ops[..2][..1] == [Schedule(0)];
    assert ops[..2][..1][..0] == [];
    assert Run(s, [Schedule(0)]) == Step(s, Schedule(0));
    assert Run(s, ops[..2]) == Step(Run(s, [Schedule(0)]), CancelAppointment(0));
  }

  // ------------------------------------------------------------------------------------------
  // Counting submissions
  // ------------------------------------------------------------------------------------------

  predicate Matches(sub: Submission, record: nat, status: SubmissionStatus) {
    sub.recordId == record && sub.status == status
  }

  lemma {:induction false} CountUpdate(
    before: seq<Submission>, i: nat, sub: Submission, record: nat, status: SubmissionStatus, n: nat)
    requires i < |before| && n <= |before|
    ensures Count(before[i := sub], record, status, n) ==
            Count(before, record, status, n)
            + (if i < n && Matches(sub, record, status) then 1 else 0)
            - (if i < n && Matches(before[i], record, status) then 1 else 0)
  {
    if n > 0 {
      CountUpdate(before, i, sub, record, status, n - 1);
    }
  }

  lemma {:induction false} CountAppend(
    before: seq<Submission>, sub: Submission, record: nat, status: SubmissionStatus, n: nat)
    requires n <= |before|
    ensures Count(before + [sub], record, status, n) == Count(before, record, status, n)
  {
    if n > 0 {
      CountAppend(before, sub, record, status, n - 1);
    }
  }

  /** A matching row is counted, and two matching rows are counted twice. */
  lemma {:induction false} CountedRows(
    subs: seq<Submission>, record: nat, status: SubmissionStatus, n: nat, i: nat, j: nat)
    requires i <= j < n <= |subs| && Matches(subs[i], record, status) && Matches(subs[j], record, status)
    ensures Count(subs, record, status, n) >= if i == j then 1 else 2
  {
    if j < n - 1 {
      CountedRows(subs, record, status, n - 1, i, j);
    } else if i < j {
      CountedRows(subs, record, status, n - 1, i, i);
    }
  }

  lemma {:induction false} SomeRowIsCounted(subs: seq<Submission>, record: nat, status: SubmissionStatus, n: nat)
    returns (i: nat)
    requires n <= |subs| && Count(subs, record, status, n) > 0
    ensures i < n && Matches(subs[i], record, status)
  {
    if Matches(subs[n - 1], record, status) {
      i := n - 1;
    } else {
      i := SomeRowIsCounted(subs, record, status, n - 1);
    }
  }

  // ------------------------------------------------------------------------------------------
  // The review queue
  // ------------------------------------------------------------------------------------------

  function Pending(status: Status): nat {
    if status == AppraisalComplete then 1 else 0
  }

  /** A record has exactly one submitted submission while its status is `appraisal_complete`, and none otherwise. */
  ghost predicate Coupled(s: State) {
    && WellFormed(s)
    && forall r: nat :: r < |s.records| ==> CountAll(s.submissions, r, Submitted) == Pending(s.records[r].status)
  }

  /** Call `op` is accepted and moves record `r` into or out of `appraisal_complete` without touching submissions. */
  predicate Disturbs(s: State, op: Op) {
    match op
    case ManualTransition(r, to) =>
      r < |s.records| && Transition(s.records[r], to).Ok?
      && (s.records[r].status == AppraisalComplete || to == AppraisalComplete)
    case EnvelopeCompleted(envelope, _) =>
      var c := FetchContract(s.contracts, envelope);
      c.Ok? && s.contracts[c.value].status != Completed && UnderReview(s, s.contracts[c.value].recordId)
    case EnvelopeDeclined(envelope) =>
      var c := FetchContract(s.contracts, envelope);
      c.Ok? && s.contracts[c.value].status != Refused && UnderReview(s, s.contracts[c.value].recordId)
    case _ => false
  }

  predicate UnderReview(s: State, record: nat) {
    record < |s.records| && s.records[record].status == AppraisalComplete
  }

  /** Changing one record and no submission keeps the coupling exactly if it does not cross the border of review. */
  lemma MovingOneRecord(s: State, t: State, r: nat)
    requires Coupled(s) && WellFormed(t) && r < |s.records| && t.submissions == s.submissions
    requires |t.records| == |s.records| && forall q :: 0 <= q < |s.records| && q != r ==> t.records[q] == s.records[q]
    ensures Coupled(t) <==> Pending(t.records[r].status) == Pending(s.records[r].status)
  {
    assert CountAll(s.submissions, r, Submitted) == Pending(s.records[r].status);
  }

  /** Rewriting one submission in step with its record keeps the coupling. */
  lemma MovingSubmission(s: State, t: State, id: nat, sub: Submission)
    requires Coupled(s) && WellFormed(t) && id < |s.submissions| && sub.recordId == s.submissions[id].recordId
    requires t.submissions == s.submissions[id := sub]
    requires |t.records| == |s.records|
    requires forall q :: 0 <= q < |s.records| && q != sub.recordId ==> t.records[q] == s.records[q]
    requires Pending(t.records[sub.recordId].status) == Pending(s.records[sub.recordId].status)
             + (if sub.status == Submitted then 1 else 0) - (if s.submissions[id].status == Submitted then 1 else 0)
    ensures Coupled(t)
  {
    forall r: nat | r < |t.records| ensures CountAll(t.submissions, r, Submitted) == Pending(t.records[r].status) {
      CountUpdate(s.submissions, id, sub, r, Submitted, |s.submissions|);
      assert CountAll(s.submissions, r, Submitted) == Pending(s.records[r].status);
    }
  }

  /** While a submission is under review, so is its record. */
  lemma SubmittedMeansUnderReview(s: State, id: nat)
    requires Coupled(s) && id < |s.submissions| && s.submissions[id].status == Submitted
    ensures s.records[s.submissions[id].recordId].status == AppraisalComplete
  {
    CountedRows(s.submissions, s.submissions[id].recordId, Submitted, |s.submissions|, id, id);
  }

  /** A manager's decision on a submission under review never meets the status machine's 409. */
  lemma ReviewNeverConflicts(s: State, op: Op)
    requires Coupled(s) && (op.Approve? || op.Reject?)
    requires op.id < |s.submissions| && s.submissions[op.id].status == Submitted
    requires op.Approve? && s.submissions[op.id].titleHold ==> op.titleConfirmed
    ensures Call(s, op).Ok?
    ensures Step(s, op).submissions[op.id].status == if op.Approve? then Approved else Rejected
  {
    SubmittedMeansUnderReview(s, op.id);
  }

  lemma SubmitKeepsCoupling(s: State, op: Op)
    requires Coupled(s) && op.Submit?
    ensures Coupled(Step(s, op))
  {
    if Call(s, op).Ok? {
      MovingSubmission(s, Step(s, op), op.id, s.submissions[op.id].(titleHold := op.titleHold, status := Submitted));
    }
  }

  lemma ReviewKeepsCoupling(s: State, op: Op)
    requires Coupled(s) && (op.Approve? || op.Reject?)
    ensures Coupled(Step(s, op))
  {
    if Call(s, op).Ok? {
      SubmittedMeansUnderReview(s, op.id);
      StepKeepsWellFormed(s, op);
      var reviewed := s.submissions[op.id].(status := if op.Approve? then Approved else Rejected);
      MovingSubmission(s, Step(s, op), op.id, reviewed);
    }
  }

  lemma DraftKeepsCoupling(s: State, op: Op)
    requires Coupled(s) && op.CreateDraft?
    ensures Coupled(Step(s, op))
  {
    if Call(s, op).Ok? {
      var draft := Submission(op.record, op.appraiser, Draft, false);
      forall r: nat ensures CountAll(s.submissions + [draft], r, Submitted) == CountAll(s.submissions, r, Submitted) {
        CountAppend(s.submissions, draft, r, Submitted, |s.submissions|);
      }
    }
  }

  lemma CallbackKeepsCouplingIff(s: State, op: Op)
    requires Coupled(s) && (op.EnvelopeCompleted? || op.EnvelopeDeclined?)
    ensures Coupled(Step(s, op)) <==> !Disturbs(s, op)
  {
    StepKeepsWellFormed(s, op);
    var c := FetchContract(s.contracts, op.envelope);
    if c.Ok? {
      MovingOneRecord(s, Step(s, op), s.contracts[c.value].recordId);
    }
  }

  /** On a coupled state, a call keeps the coupling exactly when it does not disturb a review from outside. */
  lemma {:induction false} StepKeepsCouplingIff(s: State, op: Op)
    requires Coupled(s)
    ensures Coupled(Step(s, op)) <==> !Disturbs(s, op)
  {
    StepKeepsWellFormed(s, op);
    match op {
      case Schedule(r) => if r < |s.records| { MovingOneRecord(s, Step(s, op), r); }
      case CancelAppointment(r) => if r < |s.records| { MovingOneRecord(s, Step(s, op), r); }
      case CreateDraft(_, _) => DraftKeepsCoupling(s, op);
      case Submit(_, _, _, _) => SubmitKeepsCoupling(s, op);
      case Approve(_, _, _) => ReviewKeepsCoupling(s, op);
      case Reject(_, _) => ReviewKeepsCoupling(s, op);
      case Dispatch(r, _) => if r < |s.records| { MovingOneRecord(s, Step(s, op), r); }
      case EnvelopeCompleted(_, _) => CallbackKeepsCouplingIff(s, op);
      case EnvelopeDeclined(_) => CallbackKeepsCouplingIff(s, op);
      case ManualTransition(r, _) => if r < |s.records| { MovingOneRecord(s, Step(s, op), r); }
    }
  }

  ghost predicate CoupledThroughout(s: State, ops: seq<Op>) {
    Coupled(Run(s, ops)) && (ops == [] || CoupledThroughout(s, ops[..|ops| - 1]))
  }

  predicate Undisturbed(s: State, ops: seq<Op>) {
    ops == [] || (Undisturbed(s, ops[..|ops| - 1]) && !Disturbs(Run(s, ops[..|ops| - 1]), ops[|ops| - 1]))
  }

  /**
    Over every run of every caller, submissions and records stay coupled at every point if and only if no manual
    transition or eSign callback moves a record into or out of review. Calendar, draft, submit, approve and reject
    calls never break it.
   */
  lemma {:induction false} RunsStayCoupledIff(s: State, ops: seq<Op>)
    requires Coupled(s)
    ensures CoupledThroughout(s, ops) <==> Undisturbed(s, ops)
  {
    if ops != [] {
      var n := |ops| - 1;
      RunsStayCoupledIff(s, ops[..n]);
      if CoupledThroughout(s, ops[..n]) {
        StepKeepsCouplingIff(Run(s, ops[..n]), ops[n]);
      }
    }
  }

  /**
    The coupling can be broken without any manual transition: a record is approved, appraised and submitted again, and
    then its contract is signed while the second appraisal is under review.
   */
  lemma SigningCanDisturbAReview(s: State, envelope: Envelope)
    requires Initial(s) && |s.records| > 0
    ensures var ops := [CreateDraft(0, 0), Submit(0, true, true, false), Approve(0, false, Dispatching(true, envelope)),
                        CreateDraft(0, 0), Submit(1, true, true, false), EnvelopeCompleted(envelope, 0)];
            !Undisturbed(s, ops) && !Coupled(Run(s, ops))
  {
    var a, b, c := CreateDraft(0, 0), Submit(0, true, true, false), Approve(0, false, Dispatching(true, envelope));
    var e, f := Submit(1, true, true, false), EnvelopeCompleted(envelope, 0);
    var first := FirstAppraisal(s, envelope);
    SecondAppraisal(first, envelope);
    RunAppend(s, [a, b, c], a);
    RunAppend(s, [a, b, c, a], e);
    RunAppend(s, [a, b, c, a, e], f);
    assert [a, b, c] + [a] == [a, b, c, a] && [a, b, c, a] + [e] == [a, b, c, a, e];
    assert [a, b, c, a, e] + [f] == [a, b, c, a, e, f];
  }

  lemma RunAppend(s: State, ops: seq<Op>, op: Op)
    ensures Run(s, ops + [op]) == Step(Run(s, ops), op)
    ensures Undisturbed(s, ops + [op]) ==> !Disturbs(Run(s, ops), op)
  {
    assert (ops + [op])[..|ops|] == ops;
  }

  /** One appraisal through to the signing of its contract. */
  lemma FirstAppraisal(s: State, envelope: Envelope) returns (t: State)
    requires Initial(s) && |s.records| > 0
    ensures t == Run(s, [CreateDraft(0, 0), Submit(0, true, true, false),
                         Approve(0, false, Dispatching(true, envelope))])
    ensures |t.records| > 0 && t.records[0].status == ApprovedPendingEsign
    ensures t.submissions == [Submission(0, 0, Approved, false)]
    ensures t.contracts == [Contract(0, envelope, AwaitingSignature, Option.None)]
  {
    var ops := [CreateDraft(0, 0), Submit(0, true, true, false), Approve(0, false, Dispatching(true, envelope))];
    assert ops[..2][..1] == [ops[0]] && [ops[0]][..0] == [] && ops[..2] == [ops[0], ops[1]];
    var drafted := Step(s, ops[0]);
    assert Run(s, [ops[0]]) == drafted;
    assert drafted.submissions == [Submission(0, 0, Draft, false)];
    var submitted := Step(drafted, ops[1]);
    assert Run(s, ops[..2]) == submitted;
    assert submitted.submissions == [Submission(0, 0, Submitted, false)];
    assert submitted.records[0].status == AppraisalComplete && submitted.contracts == [];
    t := Step(submitted, ops[2]);
    var moved := Move(WithStatus(submitted, 0, Approved), 0, ApprovedPendingEsign).value;
    assert moved.submissions == [Submission(0, 0, Approved, false)];
    assert Count(moved.submissions, 0, Approved, 0) == 0 && CountAll(moved.submissions, 0, Approved) == 1;
  }

  /** A second appraisal of the record, submitted while the contract of the first awaits its signature. */
  lemma SecondSubmission(t: State) returns (last: State)
    requires |t.records| > 0 && t.records[0].status == ApprovedPendingEsign
    requires t.submissions == [Submission(0, 0, Approved, false)]
    ensures last == Step(Step(t, CreateDraft(0, 0)), Submit(1, true, true, false))
    ensures |last.records| > 0 && last.records[0].status == AppraisalComplete && last.contracts == t.contracts
    ensures last.submissions == [Submission(0, 0, Approved, false), Submission(0, 0, Submitted, false)]
  {
    assert Count(t.submissions, 0, Draft, 0) == 0 && CountAll(t.submissions, 0, Draft) == 0;
    var drafted := Step(t, CreateDraft(0, 0));
    assert drafted.submissions == [Submission(0, 0, Approved, false), Submission(0, 0, Draft, false)];
    last := Step(drafted, Submit(1, true, true, false));
  }

  lemma SecondAppraisal(t: State, envelope: Envelope)
    requires |t.records| > 0 && t.records[0].status == ApprovedPendingEsign
    requires t.submissions == [Submission(0, 0, Approved, false)]
    requires t.contracts == [Contract(0, envelope, AwaitingSignature, Option.None)]
    ensures var last := Step(Step(t, CreateDraft(0, 0)), Submit(1, true, true, false));
            Disturbs(last, EnvelopeCompleted(envelope, 0)) && !Coupled(Step(last, EnvelopeCompleted(envelope, 0)))
  {
    var last := SecondSubmission(t);
    assert WithEnvelope(last.contracts, envelope, 0) == [] && WithEnvelope(last.contracts, envelope, 1) == [0];
    assert FetchContract(last.contracts, envelope) == Ok(0);
    var after := Step(last, EnvelopeCompleted(envelope, 0));
    CountedRows(after.submissions, 0, Submitted, 2, 1, 1);
    assert after.records[0].status == EsignedPendingPublish;
  }

  predicate ReviewCall(op: Op) {
    op.Schedule? || op.CancelAppointment? || op.CreateDraft? || op.Submit? || op.Approve? || op.Reject? || op.Dispatch?
  }

  /** From fresh records, every run of calendar, draft, submit, approve and reject calls ends coupled. */
  lemma {:induction false} ReviewRunsAreCoupled(s: State, ops: seq<Op>)
    requires Initial(s) && forall op :: op in ops ==> ReviewCall(op)
    ensures Coupled(Run(s, ops))
  {
    if ops != [] {
      ReviewRunsAreCoupled(s, ops[..|ops| - 1]);
      StepKeepsCouplingIff(Run(s, ops[..|ops| - 1]), ops[|ops| - 1]);
      assert ops[|ops| - 1] in ops;
    }
  }

  lemma {:induction false} QueueRows(s: State, n: nat)
    requires n <= |s.submissions|
    ensures forall i: nat :: i in Queue(s, n) <==>
              i < n && s.submissions[i].status == Submitted && UnderReview(s, s.submissions[i].recordId)
              && !s.records[s.submissions[i].recordId].deleted
    ensures forall j, k :: 0 <= j < k < |Queue(s, n)| ==> Queue(s, n)[j] < Queue(s, n)[k]
  {
    if n > 0 {
      QueueRows(s, n - 1);
      var before := Queue(s, n - 1);
      assert forall j :: 0 <= j < |before| ==> before[j] in before;
    }
  }

  /** The queue entry `k` is for record `r`. */
  predicate Lists(s: State, k: nat, r: nat) {
    var q := Queue(s, |s.submissions|);
    k < |q| && q[k] < |s.submissions| && s.submissions[q[k]].recordId == r
  }

  /** The manager queue lists each undeleted record under review exactly once, and no other record. */
  lemma {:induction false} QueueListsEachOnce(s: State, r: nat)
    requires Coupled(s) && r < |s.records|
    ensures UnderReview(s, r) && !s.records[r].deleted <==> exists k: nat :: Lists(s, k, r)
    ensures forall j: nat, k: nat :: Lists(s, j, r) && Lists(s, k, r) ==> j == k
  {
    var q := Queue(s, |s.submissions|);
    QueueRows(s, |s.submissions|);
    forall k: nat | Lists(s, k, r) ensures UnderReview(s, r) && !s.records[r].deleted {
      assert q[k] in q;
    }
    if UnderReview(s, r) && !s.records[r].deleted {
      var i := SomeRowIsCounted(s.submissions, r, Submitted, |s.submissions|);
      assert i in q;
      var k :| 0 <= k < |q| && q[k] == i;
      assert Lists(s, k, r);
    }
    forall j: nat, k: nat | Lists(s, j, r) && Lists(s, k, r) ensures j == k {
      assert q[j] in q && q[k] in q;
      var lo, hi := if j <= k then j else k, if j <= k then k else j;
      if j != k {
        assert q[lo] < q[hi];
        CountedRows(s.submissions, r, Submitted, |s.submissions|, q[lo], q[hi]);
      }
    }
  }

  // ------------------------------------------------------------------------------------------
  // eSign contracts
  // ------------------------------------------------------------------------------------------

  /** A record has at most one contract row. */
  ghost predicate OneContractEach(s: State) {
    forall i, j :: 0 <= i < j < |s.contracts| ==> s.contracts[i].recordId != s.contracts[j].recordId
  }

  /** A completed contract has a signing time, and one that awaits its signature has none. */
  ghost predicate SignaturesAgree(s: State) {
    forall i :: 0 <= i < |s.contracts| ==>
      && (s.contracts[i].status == Completed ==> s.contracts[i].signedAt.Some?)
      && (s.contracts[i].status == AwaitingSignature ==> s.contracts[i].signedAt.None?)
  }

  /** No envelope is on two contracts, and every one was issued. */
  ghost predicate EnvelopesUnique(s: State) {
    && (forall i, j :: 0 <= i < j < |s.contracts| ==> s.contracts[i].envelope != s.contracts[j].envelope)
    && (forall i :: 0 <= i < |s.contracts| ==> s.contracts[i].envelope in s.issued)
  }

  /** The provider never hands out an envelope id twice. */
  predicate FreshEnvelope(s: State, op: Op) {
    match op
    case Approve(_, _, d) => d.envelope !in s.issued
    case Dispatch(_, d) => d.envelope !in s.issued
    case _ => true
  }

  predicate FreshEnvelopes(s: State, ops: seq<Op>) {
    ops == [] || (FreshEnvelopes(s, ops[..|ops| - 1]) && FreshEnvelope(Run(s, ops[..|ops| - 1]), ops[|ops| - 1]))
  }

  lemma DispatchKeepsContracts(s: State, record: nat, d: Dispatching)
    requires OneContractEach(s) && SignaturesAgree(s)
    ensures OneContractEach(Dispatched(s, record, d)) && SignaturesAgree(Dispatched(s, record, d))
    ensures EnvelopesUnique(s) && d.envelope !in s.issued ==> EnvelopesUnique(Dispatched(s, record, d))
  {
    var t, n := Dispatched(s, record, d), |s.contracts|;
    if Sends(s, record, d) {
      match ContractOf(s.contracts, record, n) {
        case Some(c) =>
          assert forall i :: 0 <= i < n && i != c ==> t.contracts[i] == s.contracts[i];
        case None =>
          assert forall i :: 0 <= i < n ==> t.contracts[i] == s.contracts[i];
      }
    }
  }

  /** Every other call keeps the record and the envelope of each row, and the signature rule. */
  lemma OtherCallsKeepRows(s: State, op: Op)
    requires SignaturesAgree(s) && !op.Approve? && !op.Dispatch?
    ensures |Step(s, op).contracts| == |s.contracts| && Step(s, op).issued == s.issued && SignaturesAgree(Step(s, op))
    ensures forall i :: 0 <= i < |s.contracts| ==>
              && Step(s, op).contracts[i].recordId == s.contracts[i].recordId
              && Step(s, op).contracts[i].envelope == s.contracts[i].envelope
  {
  }

  lemma StepKeepsContracts(s: State, op: Op)
    requires OneContractEach(s) && SignaturesAgree(s)
    ensures OneContractEach(Step(s, op)) && SignaturesAgree(Step(s, op))
    ensures EnvelopesUnique(s) && FreshEnvelope(s, op) ==> EnvelopesUnique(Step(s, op))
  {
    match op {
      case Approve(id, _, d) =>
        if Call(s, op).Ok? {
          var record := s.submissions[id].recordId;
          var t := Move(WithStatus(s, id, Approved), record, ApprovedPendingEsign).value;
          assert t.contracts == s.contracts && t.issued == s.issued;
          DispatchKeepsContracts(t, record, d);
          assert Step(s, op) == Dispatched(t, record, d);
        }
      case Dispatch(record, d) => DispatchKeepsContracts(s, record, d);
      case _ => OtherCallsKeepRows(s, op);
    }
  }

  /**
    Over every run, a record has at most one contract row, completed contracts have a signing time and contracts that
    await a signature have none; and envelope ids stay unique if the provider never repeats one.
   */
  lemma {:induction false} RunsKeepContracts(s: State, ops: seq<Op>)
    requires OneContractEach(s) && SignaturesAgree(s) && EnvelopesUnique(s)
    ensures OneContractEach(Run(s, ops)) && SignaturesAgree(Run(s, ops))
    ensures FreshEnvelopes(s, ops) ==> EnvelopesUnique(Run(s, ops))
  {
    if ops != [] {
      RunsKeepContracts(s, ops[..|ops| - 1]);
      StepKeepsContracts(Run(s, ops[..|ops| - 1]), ops[|ops| - 1]);
    }
  }

  lemma {:induction false} SameEnvelopesSameRows(a: seq<Contract>, b: seq<Contract>, envelope: Envelope, n: nat)
    requires n <= |a| && n <= |b| && forall i :: 0 <= i < n ==> a[i].envelope == b[i].envelope
    ensures WithEnvelope(a, envelope, n) == WithEnvelope(b, envelope, n)
  {
    if n > 0 {
      SameEnvelopesSameRows(a, b, envelope, n - 1);
    }
  }

  /** The two calls are the same callback, whenever each is delivered. */
  predicate SameCallback(a: Op, b: Op) {
    || (a.EnvelopeCompleted? && b.EnvelopeCompleted? && a.envelope == b.envelope)
    || (a.EnvelopeDeclined? && b.EnvelopeDeclined? && a.envelope == b.envelope)
  }

  /** Delivering a callback again right away changes nothing, whether the first delivery was accepted or refused. */
  lemma RepeatedCallbackIsIgnored(s: State, first: Op, again: Op)
    requires SameCallback(first, again)
    ensures Step(Step(s, first), again) == Step(s, first)
  {
    var t := Step(s, first);
    SameEnvelopesSameRows(s.contracts, t.contracts, first.envelope, |s.contracts|);
    assert FetchContract(t.contracts, first.envelope) == FetchContract(s.contracts, first.envelope);
  }

  predicate Callback(op: Op, envelope: Envelope) {
    (op.EnvelopeCompleted? && op.envelope == envelope) || (op.EnvelopeDeclined? && op.envelope == envelope)
  }

  /** The envelope was issued once and is on no contract any more. */
  ghost predicate Retired(s: State, envelope: Envelope) {
    envelope in s.issued && forall i :: 0 <= i < |s.contracts| ==> s.contracts[i].envelope != envelope
  }

  /** Sending a declined contract again retires its old envelope. */
  lemma ResendingRetires(s: State, op: Op, c: nat)
    requires EnvelopesUnique(s) && OneContractEach(s) && c < |s.contracts|
    requires op.Dispatch? && FreshEnvelope(s, op) && op.record == s.contracts[c].recordId < |s.records|
    requires Sends(s, op.record, op.dispatching)
    ensures Step(s, op).contracts ==
            s.contracts[c := Contract(op.record, op.dispatching.envelope, AwaitingSignature, None)]
    ensures Retired(Step(s, op), s.contracts[c].envelope)
  {
    assert s.contracts[c].envelope in s.issued;
  }

  lemma RetiredStays(s: State, op: Op, envelope: Envelope)
    requires Retired(s, envelope) && FreshEnvelope(s, op)
    ensures Retired(Step(s, op), envelope)
  {
  }

  /** A retired envelope stays retired over every run, and at every point its callbacks change nothing. */
  lemma {:induction false} RetiredEnvelopesAreDead(s: State, ops: seq<Op>, envelope: Envelope, callback: Op)
    requires Retired(s, envelope) && FreshEnvelopes(s, ops) && Callback(callback, envelope)
    ensures Retired(Run(s, ops), envelope)
    ensures Call(Run(s, ops), callback) == Err(NotFound) && Step(Run(s, ops), callback) == Run(s, ops)
  {
    if ops != [] {
      RetiredEnvelopesAreDead(s, ops[..|ops| - 1], envelope, callback);
      RetiredStays(Run(s, ops[..|ops| - 1]), ops[|ops| - 1], envelope);
    }
    NoRowFound(Run(s, ops).contracts, envelope, |Run(s, ops).contracts|);
  }

  lemma {:induction false} NoRowFound(contracts: seq<Contract>, envelope: Envelope, n: nat)
    requires n <= |contracts| && forall i :: 0 <= i < n ==> contracts[i].envelope != envelope
    ensures WithEnvelope(contracts, envelope, n) == []
  {
    if n > 0 {
      NoRowFound(contracts, envelope, n - 1);
    }
  }

  // ------------------------------------------------------------------------------------------
  // A declined contract is never sent again
  // ------------------------------------------------------------------------------------------

  /** Behind every contract there is an approved submission. */
  ghost predicate ApprovalBehindContracts(s: State) {
    forall c :: 0 <= c < |s.contracts| ==> CountAll(s.submissions, s.contracts[c].recordId, Approved) >= 1
  }

  lemma ApprovalsStay(s: State, op: Op, record: nat)
    ensures CountAll(Step(s, op).submissions, record, Approved) >= CountAll(s.submissions, record, Approved)
    ensures op.Approve? && Call(s, op).Ok? && s.submissions[op.id].recordId == record ==>
              CountAll(Step(s, op).submissions, record, Approved) == CountAll(s.submissions, record, Approved) + 1
  {
    var n, t := |s.submissions|, Step(s, op);
    if Call(s, op).Ok? {
      match op {
        case CreateDraft(r, a) =>
          CountAppend(s.submissions, Submission(r, a, Draft, false), record, Approved, n);
        case Submit(id, _, _, hold) =>
          CountUpdate(s.submissions, id, t.submissions[id], record, Approved, n);
          assert t.submissions == s.submissions[id := t.submissions[id]];
        case Approve(id, _, _) =>
          CountUpdate(s.submissions, id, t.submissions[id], record, Approved, n);
          assert t.submissions == s.submissions[id := t.submissions[id]];
        case Reject(id, _) =>
          CountUpdate(s.submissions, id, t.submissions[id], record, Approved, n);
          assert t.submissions == s.submissions[id := t.submissions[id]];
        case _ =>
      }
    }
  }

  /** An approval sends a contract exactly when it is the record's first approval and the customer is found. */
  lemma ApprovalSendsIff(s: State, op: Op)
    requires ApprovalBehindContracts(s) && op.Approve? && Call(s, op).Ok?
    ensures var record := s.submissions[op.id].recordId;
            Step(s, op).contracts ==
            if CountAll(s.submissions, record, Approved) == 0 && op.dispatching.customerFound
            then s.contracts + [Contract(record, op.dispatching.envelope, AwaitingSignature, None)]
            else s.contracts
  {
    var record := s.submissions[op.id].recordId;
    ApprovalsStay(s, op, record);
    var t := Move(WithStatus(s, op.id, Approved), record, ApprovedPendingEsign).value;
    assert t.submissions == Step(s, op).submissions;
  }

  /**
    The shipped callers never send a declined contract again. `dispatch_contract` is reached only from an approval; a
    contract means the record was approved before, so the new approval is the second, and looking up "the" approved
    submission fails. Over every run without direct dispatches, a contract row keeps its envelope for good.
   */
  lemma {:induction false} ContractsKeepTheirEnvelopes(s: State, ops: seq<Op>)
    requires ApprovalBehindContracts(s) && forall op :: op in ops ==> !op.Dispatch?
    ensures ApprovalBehindContracts(Run(s, ops)) && |s.contracts| <= |Run(s, ops).contracts|
    ensures forall c :: 0 <= c < |s.contracts| ==>
              && Run(s, ops).contracts[c].recordId == s.contracts[c].recordId
              && Run(s, ops).contracts[c].envelope == s.contracts[c].envelope
  {
    if ops != [] {
      var n := |ops| - 1;
      ContractsKeepTheirEnvelopes(s, ops[..n]);
      assert ops[n] in ops;
      ContractsKeepOnStep(Run(s, ops[..n]), ops[n]);
    }
  }

  lemma ContractsKeepOnStep(s: State, op: Op)
    requires ApprovalBehindContracts(s) && !op.Dispatch?
    ensures ApprovalBehindContracts(Step(s, op)) && |s.contracts| <= |Step(s, op).contracts|
    ensures forall c :: 0 <= c < |s.contracts| ==>
              && Step(s, op).contracts[c].recordId == s.contracts[c].recordId
              && Step(s, op).contracts[c].envelope == s.contracts[c].envelope
  {
    var t := Step(s, op);
    if op.Approve? && Call(s, op).Ok? {
      ApprovalSendsIff(s, op);
    }
    forall c | 0 <= c < |t.contracts| ensures CountAll(t.submissions, t.contracts[c].recordId, Approved) >= 1 {
      ApprovalsStay(s, op, t.contracts[c].recordId);
    }
  }
}
