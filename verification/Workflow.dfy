/**
  The record workflow: scheduling, drafts, submission, manager review and the eSign contract. Several services write
  one record's status; each call is one transaction that an error rolls back.
 */
module Workflow {
  import opened Common
  import opened StatusMachine

  type Envelope = string

  datatype SubmissionStatus = Draft | Submitted | Approved | Rejected
  datatype Submission = Submission(recordId: nat, appraiser: nat, status: SubmissionStatus, titleHold: bool)

  datatype ContractStatus = AwaitingSignature | Completed | Refused
  datatype Contract = Contract(recordId: nat, envelope: Envelope, status: ContractStatus, signedAt: Option<Time>)

  /** `issued` collects every envelope id the signing provider has handed out: a history variable. */
  datatype State = State(
    records: seq<EquipmentRecord>, submissions: seq<Submission>, contracts: seq<Contract>, issued: set<Envelope>)

  /** What the signing provider and the customer tables answer when a contract is dispatched. */
  datatype Dispatching = Dispatching(customerFound: bool, envelope: Envelope)

  datatype Op =
    | Schedule(record: nat)                       // the calendar accepted an appointment for the record
    | CancelAppointment(record: nat)              // a live appointment of the record was cancelled
    | CreateDraft(record: nat, appraiser: nat)
    | Submit(id: nat, allowed: bool, photosComplete: bool, titleHold: bool)
    | Approve(id: nat, titleConfirmed: bool, dispatching: Dispatching)
    | Reject(id: nat, sendBack: bool)
    | Dispatch(record: nat, dispatching: Dispatching)
    | EnvelopeCompleted(envelope: Envelope, at: Time)
    | EnvelopeDeclined(envelope: Envelope)
    | ManualTransition(record: nat, to: Status)   // admin, sales or change-request code calling `record_transition`

  // ------------------------------------------------------------------------------------------
  // Queries
  // ------------------------------------------------------------------------------------------

  /** How many of the first `n` submissions of the record have the status. */
  function Count(submissions: seq<Submission>, record: nat, status: SubmissionStatus, n: nat): nat
    requires n <= |submissions|
  {
    if n == 0 then 0
    else
      var s := submissions[n - 1];
      Count(submissions, record, status, n - 1) + if s.recordId == record && s.status == status then 1 else 0
  }

  function CountAll(submissions: seq<Submission>, record: nat, status: SubmissionStatus): nat {
    Count(submissions, record, status, |submissions|)
  }

  /** The contract row of the record, among the first `n` rows. */
  function ContractOf(contracts: seq<Contract>, record: nat, n: nat): (r: Option<nat>)
    requires n <= |contracts|
    ensures r.Some? ==> r.value < n && contracts[r.value].recordId == record
    ensures r.None? ==> forall i :: 0 <= i < n ==> contracts[i].recordId != record
  {
    if n == 0 then None
    else if contracts[n - 1].recordId == record then Some(n - 1)
    else ContractOf(contracts, record, n - 1)
  }

  /** The rows that carry the envelope, among the first `n`. */
  function WithEnvelope(contracts: seq<Contract>, envelope: Envelope, n: nat): (ids: seq<nat>)
    requires n <= |contracts|
    ensures forall i: nat :: i in ids <==> i < n && contracts[i].envelope == envelope
  {
    if n == 0 then []
    else WithEnvelope(contracts, envelope, n - 1) + if contracts[n - 1].envelope == envelope then [n - 1] else []
  }

  /** `_fetch_contract`: `scalar_one_or_none` also raises if two rows carry the envelope. */
  function FetchContract(contracts: seq<Contract>, envelope: Envelope): (r: Result<nat>)
    ensures r.Ok? ==> r.value < |contracts| && contracts[r.value].envelope == envelope
  {
    var ids := WithEnvelope(contracts, envelope, |contracts|);
    if ids == [] then Err(NotFound)
    else if |ids| > 1 then Err(ServerError)
    else assert ids[0] in ids; Ok(ids[0])
  }

  /** `get_queue`: the submitted submissions of complete, undeleted records, among the first `n`. */
  function Queue(s: State, n: nat): seq<nat>
    requires n <= |s.submissions|
  {
    if n == 0 then []
    else
      var sub := s.submissions[n - 1];
      Queue(s, n - 1) +
      if sub.status == Submitted && sub.recordId < |s.records| && s.records[sub.recordId].status == AppraisalComplete
         && !s.records[sub.recordId].deleted
      then [n - 1] else []
  }

  // ------------------------------------------------------------------------------------------
  // Calls
  // ------------------------------------------------------------------------------------------

  /** `record_transition` on the record with the id. */
  function Move(s: State, record: nat, to: Status): Result<State> {
    if |s.records| <= record then Err(NotFound)
    else
      match Transition(s.records[record], to)
      case Err(e) => Err(e)
      case Ok(moved) => Ok(s.(records := s.records[record := moved]))
  }

  /** The callers that only log a missing record. */
  function MoveIfFound(s: State, record: nat, to: Status): Result<State> {
    if |s.records| <= record then Ok(s) else Move(s, record, to)
  }

  function WithStatus(s: State, id: nat, status: SubmissionStatus): State
    requires id < |s.submissions|
  {
    s.(submissions := s.submissions[id := s.submissions[id].(status := status)])
  }

  /** A contract is sent: none is outstanding, exactly one submission is approved, and the customer is found. */
  predicate Sends(s: State, record: nat, d: Dispatching) {
    && (match ContractOf(s.contracts, record, |s.contracts|)
        case None => true
        case Some(c) => s.contracts[c].status == Refused)
    && CountAll(s.submissions, record, Approved) == 1
    && d.customerFound
  }

  /** `dispatch_contract`, with the errors that its caller swallows: a declined row is reused for the new envelope. */
  function Dispatched(s: State, record: nat, d: Dispatching): State {
    if !Sends(s, record, d) then s
    else
      var sent := Contract(record, d.envelope, AwaitingSignature, None);
      s.(contracts := (match ContractOf(s.contracts, record, |s.contracts|)
                       case Some(c) => s.contracts[c := sent]
                       case None => s.contracts + [sent]),
         issued := s.issued + {d.envelope})
  }

  function SubmitDraft(s: State, op: Op): Result<State>
    requires op.Submit?
  {
    if |s.submissions| <= op.id then Err(NotFound)
    else if !op.allowed then Err(Unprocessable)
    else if s.submissions[op.id].status != Draft then Err(Conflict)
    else if !op.photosComplete then Err(Conflict)
    else
      var held := s.(submissions := s.submissions[op.id := s.submissions[op.id].(titleHold := op.titleHold)]);
      MoveIfFound(WithStatus(held, op.id, Submitted), s.submissions[op.id].recordId, AppraisalComplete)
  }

  function ApproveSubmission(s: State, op: Op): Result<State>
    requires op.Approve?
  {
    if |s.submissions| <= op.id then Err(NotFound)
    else if s.submissions[op.id].status != Submitted then Err(Conflict)
    else if s.submissions[op.id].titleHold && !op.titleConfirmed then Err(Conflict)
    else
      var record := s.submissions[op.id].recordId;
      match Move(WithStatus(s, op.id, Approved), record, ApprovedPendingEsign)
      case Err(e) => Err(e)
      case Ok(t) => Ok(Dispatched(t, record, op.dispatching))
  }

  function RejectSubmission(s: State, op: Op): Result<State>
    requires op.Reject?
  {
    if |s.submissions| <= op.id then Err(NotFound)
    else if s.submissions[op.id].status != Submitted then Err(Conflict)
    else
      Move(WithStatus(s, op.id, Rejected), s.submissions[op.id].recordId, if op.sendBack then NewRequest else Declined)
  }

  function CompleteEnvelope(s: State, op: Op): Result<State>
    requires op.EnvelopeCompleted?
  {
    match FetchContract(s.contracts, op.envelope)
    case Err(e) => Err(e)
    case Ok(c) =>
      if s.contracts[c].status == Completed then Ok(s)
      else
        var signed := s.contracts[c].(status := Completed, signedAt := Some(op.at));
        MoveIfFound(s.(contracts := s.contracts[c := signed]), signed.recordId, EsignedPendingPublish)
  }

  function DeclineEnvelope(s: State, op: Op): Result<State>
    requires op.EnvelopeDeclined?
  {
    match FetchContract(s.contracts, op.envelope)
    case Err(e) => Err(e)
    case Ok(c) =>
      if s.contracts[c].status == Refused then Ok(s)
      else
        var declined := s.contracts[c].(status := Refused);
        var t := s.(contracts := s.contracts[c := declined]);
        if declined.recordId < |s.records| && s.records[declined.recordId].status == ApprovedPendingEsign then Ok(t)
        else MoveIfFound(t, declined.recordId, ApprovedPendingEsign)
  }

  function Call(s: State, op: Op): Result<State> {
    match op
    case Schedule(record) =>
      if |s.records| <= record then Err(NotFound)
      else if s.records[record].status != NewRequest then Err(Unprocessable)
      else Move(s, record, AppraisalScheduled)
    case CancelAppointment(record) =>
      if |s.records| <= record then Err(NotFound)
      else Ok(s.(records := s.records[record := RevertOnCancel(s.records[record])]))
    case CreateDraft(record, appraiser) =>
      if |s.records| <= record then Err(ServerError)
      else if CountAll(s.submissions, record, Draft) > 0 then Err(Conflict)
      else Ok(s.(submissions := s.submissions + [Submission(record, appraiser, Draft, false)]))
    case Submit(_, _, _, _) => SubmitDraft(s, op)
    case Approve(_, _, _) => ApproveSubmission(s, op)
    case Reject(_, _) => RejectSubmission(s, op)
    case Dispatch(record, d) => if |s.records| <= record then Err(NotFound) else Ok(Dispatched(s, record, d))
    case EnvelopeCompleted(_, _) => CompleteEnvelope(s, op)
    case EnvelopeDeclined(_) => DeclineEnvelope(s, op)
    case ManualTransition(record, to) => Move(s, record, to)
  }

  /** An error rolls the call back. */
  function Step(s: State, op: Op): State {
    match Call(s, op)
    case Ok(t) => t
    case Err(_) => s
  }

  function Run(s: State, ops: seq<Op>): State {
    if ops == [] then s else Step(Run(s, ops[..|ops| - 1]), ops[|ops| - 1])
  }

  /** Records as they arrive: new requests with an empty timeline, and nothing else. */
  predicate Initial(s: State) {
    && (forall r :: 0 <= r < |s.records| ==> s.records[r].status == NewRequest && s.records[r].log == [])
    && s.submissions == [] && s.contracts == [] && s.issued == {}
  }

  /** Rows point at rows that exist. */
  predicate WellFormed(s: State) {
    && (forall i :: 0 <= i < |s.submissions| ==> s.submissions[i].recordId < |s.records|)
    && (forall c :: 0 <= c < |s.contracts| ==> s.contracts[c].recordId < |s.records|)
  }

  lemma StepKeepsWellFormed(s: State, op: Op)
    requires WellFormed(s)
    ensures WellFormed(Step(s, op)) && |Step(s, op).records| == |s.records|
  {
  }

  // ------------------------------------------------------------------------------------------
  // The services
  // ------------------------------------------------------------------------------------------

  /** The services' shared database session. Every method that can fail after a write rolls that write back. */
  class Session {
    var records: seq<EquipmentRecord>
    var submissions: seq<Submission>
    var contracts: seq<Contract>
    ghost var issued: set<Envelope>

    ghost function Current(): State
      reads this
    {
      State(records, submissions, contracts, issued)
    }

    constructor (records: seq<EquipmentRecord>)
      ensures Current() == State(records, [], [], {})
    {
      this.records := records;
      submissions := [];
      contracts := [];
      issued := {};
    }

    method RecordTransition(record: nat, to: Status) returns (r: Result<StatusEvent>)
      modifies this`records
      ensures match Move(old(Current()), record, to)
              case Ok(t) => r == Ok(StatusEvent(old(records)[record].status, to)) && Current() == t
              case Err(e) => r == Err(e) && Current() == old(Current())
    {
      if |records| <= record {
        return Err(NotFound);
      }
      var from := records[record].status;
      if from == to || IsForbiddenTransition(from, to) {
        return Err(Conflict);
      }
      var event := StatusEvent(from, to);
      records := records[record := records[record].(status := to, log := records[record].log + [event])];
      r := Ok(event);
    }

    method CreateDraft(record: nat, appraiser: nat) returns (r: Result<nat>)
      modifies this`submissions
      ensures var op := Op.CreateDraft(record, appraiser);
              && Current() == Step(old(Current()), op)
              && r == (match Call(old(Current()), op) case Ok(_) => Ok(|old(submissions)|) case Err(e) => Err(e))
    {
      if |records| <= record {
        return Err(ServerError);
      }
      var existing := CountAll(submissions, record, Draft);
      if existing > 0 {
        return Err(Conflict);
      }
      r := Ok(|submissions|);
      submissions := submissions + [Submission(record, appraiser, Draft, false)];
    }

    method Submit(id: nat, allowed: bool, photosComplete: bool, titleHold: bool) returns (r: Result<nat>)
      modifies this
      ensures var op := Op.Submit(id, allowed, photosComplete, titleHold);
              && Current() == Step(old(Current()), op)
              && r == (match Call(old(Current()), op) case Ok(_) => Ok(id) case Err(e) => Err(e))
    {
      if |submissions| <= id {
        return Err(NotFound);
      }
      if !allowed {
        return Err(Unprocessable);
      }
      if submissions[id].status != Draft || !photosComplete {
        return Err(Conflict);
      }
      var saved := submissions;
      submissions := submissions[id := submissions[id].(titleHold := titleHold)];
      submissions := submissions[id := submissions[id].(status := Submitted)];
      if |records| <= submissions[id].recordId {
        return Ok(id);
      }
      var moved := RecordTransition(submissions[id].recordId, AppraisalComplete);
      if moved.Err? {
        submissions := saved;
        return Err(moved.error);
      }
      r := Ok(id);
    }

    method Approve(id: nat, titleConfirmed: bool, d: Dispatching) returns (r: Result<nat>)
      modifies this
      ensures var op := Op.Approve(id, titleConfirmed, d);
              && Current() == Step(old(Current()), op)
              && r == (match Call(old(Current()), op) case Ok(_) => Ok(id) case Err(e) => Err(e))
    {
      if |submissions| <= id {
        return Err(NotFound);
      }
      var submission := submissions[id];
      if submission.status != Submitted || (submission.titleHold && !titleConfirmed) {
        return Err(Conflict);
      }
      var saved := submissions;
      submissions := submissions[id := submission.(status := Approved)];
      var moved := RecordTransition(submission.recordId, ApprovedPendingEsign);
      if moved.Err? {
        submissions := saved;
        return Err(moved.error);
      }
      DispatchContract(submission.recordId, d);
      r := Ok(id);
    }

    method Reject(id: nat, sendBack: bool) returns (r: Result<nat>)
      modifies this
      ensures var op := Op.Reject(id, sendBack);
              && Current() == Step(old(Current()), op)
              && r == (match Call(old(Current()), op) case Ok(_) => Ok(id) case Err(e) => Err(e))
    {
      if |submissions| <= id {
        return Err(NotFound);
      }
      if submissions[id].status != Submitted {
        return Err(Conflict);
      }
      var saved := submissions;
      submissions := submissions[id := submissions[id].(status := Rejected)];
      var moved := RecordTransition(submissions[id].recordId, if sendBack then NewRequest else Declined);
      if moved.Err? {
        submissions := saved;
        return Err(moved.error);
      }
      r := Ok(id);
    }

    method DispatchContract(record: nat, d: Dispatching)
      modifies this`contracts, this`issued
      ensures Current() == Dispatched(old(Current()), record, d)
    {
      var contract := ContractOf(contracts, record, |contracts|);
      if contract.Some? && contracts[contract.value].status != Refused {
        return;
      }
      var approved := CountAll(submissions, record, Approved);
      if approved != 1 || !d.customerFound {
        return;
      }
      issued := issued + {d.envelope};
      if contract.Some? {
        var c := contract.value;
        var row := contracts[c].(envelope := d.envelope, status := AwaitingSignature, signedAt := None);
        contracts := contracts[c := row];
      } else {
        contracts := contracts + [Contract(record, d.envelope, AwaitingSignature, None)];
      }
    }

    method HandleEnvelopeCompleted(envelope: Envelope, now: Time) returns (r: Result<()>)
      modifies this
      ensures var op := EnvelopeCompleted(envelope, now);
              && Current() == Step(old(Current()), op)
              && r == (match Call(old(Current()), op) case Ok(_) => Ok(()) case Err(e) => Err(e))
      ensures contracts != old(contracts) ==>
                exists c :: 0 <= c < |contracts|
                            && contracts[c].envelope == envelope && contracts[c].status == Completed
                            && contracts[c].signedAt == Some(now)
                            && (contracts[c].recordId < |records| ==>
                                  records[contracts[c].recordId].status == EsignedPendingPublish)
    {
      var fetched := FetchContract(contracts, envelope);
      if fetched.Err? {
        return Err(fetched.error);
      }
      var c := fetched.value;
      if contracts[c].status == Completed {
        return Ok(());
      }
      var saved := contracts;
      contracts := contracts[c := contracts[c].(status := Completed, signedAt := Some(now))];
      if |records| <= contracts[c].recordId {
        return Ok(());
      }
      var moved := RecordTransition(contracts[c].recordId, EsignedPendingPublish);
      if moved.Err? {
        contracts := saved;
        return Err(moved.error);
      }
      r := Ok(());
    }

    method HandleEnvelopeDeclined(envelope: Envelope) returns (r: Result<()>)
      modifies this
      ensures var op := EnvelopeDeclined(envelope);
              && Current() == Step(old(Current()), op)
              && r == (match Call(old(Current()), op) case Ok(_) => Ok(()) case Err(e) => Err(e))
    {
      var fetched := FetchContract(contracts, envelope);
      if fetched.Err? {
        return Err(fetched.error);
      }
      var c := fetched.value;
      if contracts[c].status == Refused {
        return Ok(());
      }
      var saved, record := contracts, contracts[c].recordId;
      contracts := contracts[c := contracts[c].(status := Refused)];
      if record < |records| && records[record].status == ApprovedPendingEsign {
        return Ok(());
      }
      if |records| <= record {
        return Ok(());
      }
      var moved := RecordTransition(record, ApprovedPendingEsign);
      if moved.Err? {
        contracts := saved;
        return Err(moved.error);
      }
      r := Ok(());
    }
  }
}
