/** The records behind the appointments: how the calendar's calls move them, and which of them have an appointment. */
module CalendarRecords {
  import opened Common
  import opened StatusMachine
  import opened Calendar
  import opened CalendarSafety
  import Workflow

  // ------------------------------------------------------------------------------------------
  // The calendar as a caller of the record workflow
  // ------------------------------------------------------------------------------------------

  /** The workflow calls that one calendar call amounts to. */
  function WorkflowCalls(s: State, q: Request): seq<Workflow.Op> {
    if Precheck(s, q.op).Some? || Refused(s, q) then []
    else
      match q.op
      case Create(record, _, _, _, _) => [Workflow.Schedule(record)]
      case Update(_, _, _, _, _, _) => []
      case Cancel(event, _) =>
        if s.events[event].Live() then [Workflow.CancelAppointment(s.events[event].recordId)] else []
  }

  function AllWorkflowCalls(s: State, requests: seq<Request>): seq<Workflow.Op>
    decreases |requests|
  {
    if requests == [] then [] else WorkflowCalls(s, requests[0]) + AllWorkflowCalls(Step(s, requests[0]), requests[1..])
  }

  lemma {:induction false} RunAppend(w: Workflow.State, a: seq<Workflow.Op>, b: seq<Workflow.Op>)
    ensures Workflow.Run(w, a + b) == Workflow.Run(Workflow.Run(w, a), b)
  {
    if b == [] {
      assert a + b == a;
    } else {
      assert (a + b)[..|a + b| - 1] == a + b[..|b| - 1];
      RunAppend(w, a, b[..|b| - 1]);
    }
  }

  lemma StepIsWorkflow(s: State, q: Request, w: Workflow.State)
    requires w.records == s.records
    ensures Workflow.Run(w, WorkflowCalls(s, q)) == w.(records := Step(s, q).records)
  {
    var calls := WorkflowCalls(s, q);
    if calls != [] {
      assert calls[..0] == [];
      assert Workflow.Run(w, calls) == Workflow.Step(w, calls[0]);
    }
  }

  /** A run of calendar calls moves the records exactly as a run of the workflow's schedule and cancel calls does. */
  lemma {:induction false} RunIsWorkflow(s: State, requests: seq<Request>, w: Workflow.State)
    requires w.records == s.records
    ensures Workflow.Run(w, AllWorkflowCalls(s, requests)) == w.(records := Run(s, requests).records)
    decreases |requests|
  {
    if requests != [] {
      var first := WorkflowCalls(s, requests[0]);
      StepIsWorkflow(s, requests[0], w);
      RunIsWorkflow(Step(s, requests[0]), requests[1..], Workflow.Run(w, first));
      RunAppend(w, first, AllWorkflowCalls(Step(s, requests[0]), requests[1..]));
    }
  }

  // ------------------------------------------------------------------------------------------
  // Appointments of one record
  // ------------------------------------------------------------------------------------------

  predicate LiveFor(e: Event, record: nat) {
    e.Live() && e.recordId == record
  }

  /** The record's live appointments among the first `n` events. */
  function LiveCount(events: seq<Event>, record: nat, n: nat): nat
    requires n <= |events|
  {
    if n == 0 then 0 else LiveCount(events, record, n - 1) + if LiveFor(events[n - 1], record) then 1 else 0
  }

  function Appointments(s: State, record: nat): nat {
    LiveCount(s.events, record, |s.events|)
  }

  lemma {:induction false} CountRewrite(before: seq<Event>, i: nat, e: Event, record: nat, n: nat)
    requires i < |before| && n <= |before|
    ensures LiveCount(before[i := e], record, n) ==
            LiveCount(before, record, n) + (if i < n && LiveFor(e, record) then 1 else 0)
            - (if i < n && LiveFor(before[i], record) then 1 else 0)
  {
    if n > 0 {
      CountRewrite(before, i, e, record, n - 1);
    }
  }

  lemma {:induction false} CountAdd(before: seq<Event>, e: Event, record: nat, n: nat)
    requires n <= |before|
    ensures LiveCount(before + [e], record, n) == LiveCount(before, record, n)
  {
    if n > 0 {
      CountAdd(before, e, record, n - 1);
    }
  }

  /** What a call does to the number of live appointments of a record. */
  lemma StepCounts(s: State, q: Request, record: nat)
    ensures Appointments(Step(s, q), record) ==
            Appointments(s, record) + (if Workflow.Schedule(record) in WorkflowCalls(s, q) then 1 else 0)
            - (if Workflow.CancelAppointment(record) in WorkflowCalls(s, q) then 1 else 0)
  {
    if Precheck(s, q.op).None? && !Refused(s, q) {
      match q.op {
        case Create(_, _, _, _, _) =>
          CountAdd(s.events, Proposed(s, q.op), record, |s.events|);
        case Update(event, _, _, _, _, _) =>
          CountRewrite(s.events, event, Proposed(s, q.op), record, |s.events|);
        case Cancel(event, at) =>
          CountRewrite(s.events, event, s.events[event].(cancelledAt := Some(at)), record, |s.events|);
      }
    }
  }

  /** A record has one live appointment while its status is `appraisal_scheduled`, and none otherwise. */
  ghost predicate ScheduledOnce(s: State) {
    forall r: nat :: r < |s.records| ==>
      Appointments(s, r) == if s.records[r].status == AppraisalScheduled then 1 else 0
  }

  /**
    Over every run of calendar calls, a record has exactly one live appointment while it is scheduled and none
    otherwise.
   */
  lemma {:induction false} RunsScheduleOnce(s: State, requests: seq<Request>)
    requires ScheduledOnce(s)
    ensures ScheduledOnce(Run(s, requests))
    decreases |requests|
  {
    if requests != [] {
      StepSchedulesOnce(s, requests[0]);
      RunsScheduleOnce(Step(s, requests[0]), requests[1..]);
    }
  }

  lemma StepSchedulesOnce(s: State, q: Request)
    requires ScheduledOnce(s)
    ensures ScheduledOnce(Step(s, q))
  {
    forall r: nat | r < |s.records|
      ensures Appointments(Step(s, q), r) == if Step(s, q).records[r].status == AppraisalScheduled then 1 else 0
    {
      StepCounts(s, q, r);
      assert Appointments(s, r) == if s.records[r].status == AppraisalScheduled then 1 else 0;
    }
  }


  /**
    From any state, cancelling an appointment of a scheduled record leaves the record a new request, and leaves it one
    with a live appointment exactly when it had another.
   */
  lemma {:induction false} CancelStrandsIff(s: State, q: Request)
    requires q.op.Cancel? && Precheck(s, q.op).None? && s.events[q.op.event].Live()
    requires s.records[s.events[q.op.event].recordId].status == AppraisalScheduled
    ensures var r := s.events[q.op.event].recordId;
            && Step(s, q).records[r].status == NewRequest
            && (Appointments(Step(s, q), r) > 0 <==> Appointments(s, r) > 1)
  {
    StepCounts(s, q, s.events[q.op.event].recordId);
  }

  /** An appraisal of the record that is drafted, submitted, and sent back by the manager. */
  function SentBack(w: Workflow.State, record: nat): seq<Workflow.Op> {
    var n := |w.submissions|;
    [Workflow.CreateDraft(record, 0), Workflow.Submit(n, true, true, false), Workflow.Reject(n, true)]
  }

  lemma SentBackIsNew(w: Workflow.State, record: nat)
    requires record < |w.records| && w.records[record].status == AppraisalScheduled
    requires Workflow.CountAll(w.submissions, record, Workflow.Draft) == 0
    ensures var t := Workflow.Run(w, SentBack(w, record));
            |t.records| == |w.records| && t.records[record].status == NewRequest
  {
    var ops := SentBack(w, record);
    assert ops[..2] == [ops[0], ops[1]] && ops[..2][..1] == [ops[0]] && [ops[0]][..0] == [];
    var drafted := Workflow.Step(w, ops[0]);
    assert Workflow.Run(w, [ops[0]]) == drafted;
    var submitted := Workflow.Step(drafted, ops[1]);
    assert Workflow.Run(w, ops[..2]) == submitted;
    SubmittedAndRejected(w, record);
  }

  lemma SubmittedAndRejected(w: Workflow.State, record: nat)
    requires record < |w.records| && w.records[record].status == AppraisalScheduled
    requires Workflow.CountAll(w.submissions, record, Workflow.Draft) == 0
    ensures var ops := SentBack(w, record);
            var t := Workflow.Step(Workflow.Step(Workflow.Step(w, ops[0]), ops[1]), ops[2]);
            |t.records| == |w.records| && t.records[record].status == NewRequest
  {
    var ops, n := SentBack(w, record), |w.submissions|;
    var drafted := Workflow.Step(w, ops[0]);
    assert drafted.records == w.records && |drafted.submissions| == n + 1;
    assert drafted.submissions[n] == Workflow.Submission(record, 0, Workflow.Draft, false);
    var submitted := Workflow.Step(drafted, ops[1]);
    assert |submitted.submissions| == n + 1 && submitted.submissions[n].recordId == record;
    assert submitted.submissions[n].status == Workflow.Submitted;
    assert submitted.records[record].status == AppraisalComplete;
  }

  /**
    Other services do leave a record with two: a manager sends an appraised record back, its old appointment stays
    live, and a second one is accepted.
   */
  lemma SendBackKeepsOldAppointment(s: State, w: Workflow.State, again: Request) returns (t: State)
    requires w.records == s.records && again.op.Create? && again.op.record < |s.records|
    requires s.records[again.op.record].status == AppraisalScheduled && Appointments(s, again.op.record) >= 1
    requires Workflow.CountAll(w.submissions, again.op.record, Workflow.Draft) == 0
    requires again.op.minutes.None? && again.op.appraiser in s.appraisers
    requires forall i :: 0 <= i < |s.events| ==> s.events[i].appraiser != again.op.appraiser
    ensures var r := again.op.record;
            && t == s.(records := Workflow.Run(w, SentBack(w, r)).records)
            && |Step(t, again).records| == |s.records|
            && Step(t, again).records[r].status == AppraisalScheduled && Appointments(Step(t, again), r) >= 2
  {
    var r := again.op.record;
    SentBackIsNew(w, r);
    t := s.(records := Workflow.Run(w, SentBack(w, r)).records);
    assert !Refused(t, again);
    StepCounts(t, again, r);
  }

  // ------------------------------------------------------------------------------------------
  // Runs that mix calendar and workflow calls
  // ------------------------------------------------------------------------------------------

  /** A call of the calendar, or one of another service that shares the records. */
  datatype MixedCall = Booking(q: Request) | Other(op: Workflow.Op)

  /** The two services' states; they share the records. */
  datatype Mixed = Mixed(calendar: State, workflow: Workflow.State)

  /** The workflow calls that stand for the calendar's own moves; here they come as bookings. */
  predicate CalendarMove(op: Workflow.Op) {
    op.Schedule? || op.CancelAppointment?
  }

  function MixedStep(m: Mixed, c: MixedCall): Mixed {
    match c
    case Booking(q) =>
      var t := Step(m.calendar, q);
      Mixed(t, m.workflow.(records := t.records))
    case Other(op) =>
      if CalendarMove(op) then m
      else
        var t := Workflow.Step(m.workflow, op);
        Mixed(m.calendar.(records := t.records), t)
  }

  function MixedRun(m: Mixed, calls: seq<MixedCall>): Mixed {
    if calls == [] then m else MixedStep(MixedRun(m, calls[..|calls| - 1]), calls[|calls| - 1])
  }

  /** No record has two live appointments. */
  ghost predicate AtMostOne(s: State) {
    forall r: nat :: Appointments(s, r) <= 1
  }

  /** The call is a create that is accepted for a record with a live appointment. */
  predicate SecondBooking(m: Mixed, c: MixedCall) {
    && c.Booking? && c.q.op.Create?
    && Precheck(m.calendar, c.q.op).None? && !Refused(m.calendar, c.q)
    && Appointments(m.calendar, c.q.op.record) > 0
  }

  lemma {:induction false} MixedStepBooksOnceIff(m: Mixed, c: MixedCall)
    requires AtMostOne(m.calendar)
    ensures AtMostOne(MixedStep(m, c).calendar) <==> !SecondBooking(m, c)
  {
    if c.Booking? {
      forall r: nat
        ensures Appointments(Step(m.calendar, c.q), r) <= 1 <==> !(SecondBooking(m, c) && r == c.q.op.record)
      {
        StepCounts(m.calendar, c.q, r);
        assert Appointments(m.calendar, r) <= 1;
      }
      if SecondBooking(m, c) {
        assert Appointments(Step(m.calendar, c.q), c.q.op.record) > 1;
      }
    } else {
      forall r: nat ensures Appointments(MixedStep(m, c).calendar, r) == Appointments(m.calendar, r) {}
    }
  }

  ghost predicate BookedOnceThroughout(m: Mixed, calls: seq<MixedCall>) {
    AtMostOne(MixedRun(m, calls).calendar) && (calls == [] || BookedOnceThroughout(m, calls[..|calls| - 1]))
  }

  predicate NoSecondBooking(m: Mixed, calls: seq<MixedCall>) {
    calls == [] ||
    (NoSecondBooking(m, calls[..|calls| - 1])
     && !SecondBooking(MixedRun(m, calls[..|calls| - 1]), calls[|calls| - 1]))
  }

  /**
    Over runs that mix the calendar's calls with any other calls on the records, no record has two live appointments
    at any point if and only if no create is accepted for a record that still has one.
   */
  lemma {:induction false} MixedRunsBookOnceIff(m: Mixed, calls: seq<MixedCall>)
    requires AtMostOne(m.calendar)
    ensures BookedOnceThroughout(m, calls) <==> NoSecondBooking(m, calls)
  {
    if calls != [] {
      var n := |calls| - 1;
      MixedRunsBookOnceIff(m, calls[..n]);
      if BookedOnceThroughout(m, calls[..n]) {
        MixedStepBooksOnceIff(MixedRun(m, calls[..n]), calls[n]);
      }
    }
  }

  /** Mixed runs never double-book an appraiser either: no other call touches an appointment. */
  lemma {:induction false} MixedRunsNeverDoubleBook(m: Mixed, calls: seq<MixedCall>)
    requires ValidEvents(m.calendar.events) && NoDoubleBooking(m.calendar.events)
    ensures ValidEvents(MixedRun(m, calls).calendar.events) && NoDoubleBooking(MixedRun(m, calls).calendar.events)
  {
    if calls != [] {
      var n := |calls| - 1;
      MixedRunsNeverDoubleBook(m, calls[..n]);
      var before := MixedRun(m, calls[..n]);
      if calls[n].Booking? {
        StepKeepsDurations(before.calendar, calls[n].q);
        StepKeepsNoDoubleBooking(before.calendar, calls[n].q);
      }
    }
  }

  // ------------------------------------------------------------------------------------------
  // Which calls let a record be booked twice
  // ------------------------------------------------------------------------------------------

  /** The states share the records; no record has two live appointments, and a new request has none. */
  ghost predicate Clean(m: Mixed) {
    && m.workflow.records == m.calendar.records
    && AtMostOne(m.calendar)
    && forall r: nat :: r < |m.calendar.records| && m.calendar.records[r].status == NewRequest ==>
         Appointments(m.calendar, r) == 0
  }

  /** The record that a call returns to `new_request`: one a manager sends back, or one moved by hand. */
  function FreedRecord(w: Workflow.State, op: Workflow.Op): Option<nat> {
    if Workflow.Call(w, op).Err? then Option.None
    else
      match op
      case Reject(id, sendBack) =>
        if sendBack && id < |w.submissions| then Some(w.submissions[id].recordId) else Option.None
      case ManualTransition(record, to) => if to == NewRequest then Some(record) else Option.None
      case _ => Option.None
  }

  /** The freed record has a live appointment. A caller can evaluate this before the call. */
  predicate FreesBooked(m: Mixed, c: MixedCall) {
    c.Other? && FreedRecord(m.workflow, c.op).Some? && Appointments(m.calendar, FreedRecord(m.workflow, c.op).value) > 0
  }

  /** No other service makes a record a new request in any other way. */
  lemma OnlyTheseFree(w: Workflow.State, op: Workflow.Op, r: nat)
    requires !CalendarMove(op) && r < |w.records|
    ensures |Workflow.Step(w, op).records| == |w.records|
    ensures FreedRecord(w, op) == Some(r) ==> Workflow.Step(w, op).records[r].status == NewRequest
    ensures Workflow.Step(w, op).records[r].status == NewRequest ==>
              FreedRecord(w, op) == Some(r) || w.records[r].status == NewRequest
  {
  }

  lemma FreedRecordExists(w: Workflow.State, op: Workflow.Op)
    requires FreedRecord(w, op).Some?
    ensures FreedRecord(w, op).value < |w.records|
  {
  }

  lemma BookingKeepsClean(m: Mixed, q: Request)
    requires Clean(m)
    ensures Clean(MixedStep(m, Booking(q))) && !SecondBooking(m, Booking(q))
  {
    var t := Step(m.calendar, q);
    forall r: nat
      ensures Appointments(t, r) <= 1
      ensures r < |t.records| && t.records[r].status == NewRequest ==> Appointments(t, r) == 0
    {
      StepCounts(m.calendar, q, r);
      assert Appointments(m.calendar, r) <= 1;
    }
  }

  lemma OtherKeepsCleanIff(m: Mixed, c: MixedCall)
    requires Clean(m) && c.Other?
    ensures Clean(MixedStep(m, c)) <==> !FreesBooked(m, c)
  {
    if !CalendarMove(c.op) {
      var t := MixedStep(m, c);
      forall r: nat ensures Appointments(t.calendar, r) == Appointments(m.calendar, r) {}
      forall r: nat | r < |m.calendar.records|
        ensures r < |t.calendar.records|
        ensures t.calendar.records[r].status == NewRequest && Appointments(m.calendar, r) > 0 ==> FreesBooked(m, c)
      {
        OnlyTheseFree(m.workflow, c.op, r);
      }
      if FreesBooked(m, c) {
        FreedRecordExists(m.workflow, c.op);
        OnlyTheseFree(m.workflow, c.op, FreedRecord(m.workflow, c.op).value);
      }
    }
  }

  ghost predicate CleanThroughout(m: Mixed, calls: seq<MixedCall>) {
    Clean(MixedRun(m, calls)) && (calls == [] || CleanThroughout(m, calls[..|calls| - 1]))
  }

  predicate NoBookedFreed(m: Mixed, calls: seq<MixedCall>) {
    calls == [] ||
    (NoBookedFreed(m, calls[..|calls| - 1])
     && !FreesBooked(MixedRun(m, calls[..|calls| - 1]), calls[|calls| - 1]))
  }

  /**
    Over runs that mix the calendar's calls with any other calls on the records, a record has at most one live
    appointment, and a new request has none, at every point if and only if no call returns a record with a live
    appointment to `new_request`. In such runs no create is accepted for a record that has one.
   */
  lemma {:induction false} MixedRunsStayCleanIff(m: Mixed, calls: seq<MixedCall>)
    requires Clean(m)
    ensures CleanThroughout(m, calls) <==> NoBookedFreed(m, calls)
    ensures NoBookedFreed(m, calls) ==> NoSecondBooking(m, calls)
  {
    if calls != [] {
      var n := |calls| - 1;
      MixedRunsStayCleanIff(m, calls[..n]);
      if CleanThroughout(m, calls[..n]) {
        var before := MixedRun(m, calls[..n]);
        if calls[n].Booking? {
          BookingKeepsClean(before, calls[n].q);
        } else {
          OtherKeepsCleanIff(before, calls[n]);
        }
      }
    }
  }

  // ------------------------------------------------------------------------------------------
  // The failing side is reached
  // ------------------------------------------------------------------------------------------

  /** One fresh record, no appointments, and two appraisers. */
  function FreshDesk(): Mixed {
    var calendar := EmptyCalendar(1, {7, 8});
    Mixed(calendar, Workflow.State(calendar.records, [], [], {}))
  }

  /** The record is scheduled, appraised, sent back and scheduled again, and then its first appointment is cancelled. */
  function TwiceBooked(travel: Travel): seq<MixedCall> {
    [Booking(Request(travel, Create(0, 7, 0, Option.None, Option.None))),
     Other(Workflow.CreateDraft(0, 7)), Other(Workflow.Submit(0, true, true, false)), Other(Workflow.Reject(0, true)),
     Booking(Request(travel, Create(0, 8, 0, Option.None, Option.None))),
     Booking(Request(travel, Cancel(0, 0)))]
  }

  lemma MixedRunAppend(m: Mixed, calls: seq<MixedCall>, c: MixedCall)
    ensures MixedRun(m, calls + [c]) == MixedStep(MixedRun(m, calls), c)
    ensures NoSecondBooking(m, calls + [c]) ==> !SecondBooking(MixedRun(m, calls), c)
  {
    assert (calls + [c])[..|calls|] == calls;
  }

  lemma FirstBooking(travel: Travel) returns (m: Mixed)
    ensures m == MixedStep(FreshDesk(), TwiceBooked(travel)[0])
    ensures |m.calendar.records| == 1 && m.calendar.records[0].status == AppraisalScheduled
    ensures m.workflow == Workflow.State(m.calendar.records, [], [], {}) && m.calendar.appraisers == {7, 8}
    ensures |m.calendar.events| == 1 && LiveFor(m.calendar.events[0], 0) && m.calendar.events[0].appraiser == 7
  {
    var q := TwiceBooked(travel)[0].q;
    assert !Refused(FreshDesk().calendar, q);
    m := MixedStep(FreshDesk(), TwiceBooked(travel)[0]);
  }

  lemma SentBackDesk(m: Mixed, travel: Travel) returns (t: Mixed)
    requires |m.calendar.records| == 1 && m.calendar.records[0].status == AppraisalScheduled
    requires m.workflow == Workflow.State(m.calendar.records, [], [], {})
    ensures var calls := TwiceBooked(travel); t == MixedStep(MixedStep(MixedStep(m, calls[1]), calls[2]), calls[3])
    ensures |t.calendar.records| == 1 && t.calendar.records[0].status == NewRequest
    ensures t.calendar == m.calendar.(records := t.calendar.records)
  {
    var calls := TwiceBooked(travel);
    var drafted := MixedStep(m, calls[1]);
    assert Workflow.Count([], 0, Workflow.Draft, 0) == 0;
    assert drafted.workflow.submissions == [Workflow.Submission(0, 7, Workflow.Draft, false)];
    assert drafted.workflow.records == m.calendar.records;
    var submitted := MixedStep(drafted, calls[2]);
    assert submitted.workflow.submissions == [Workflow.Submission(0, 7, Workflow.Submitted, false)];
    assert submitted.workflow.records[0].status == AppraisalComplete && |submitted.workflow.records| == 1;
    t := MixedStep(submitted, calls[3]);
  }

  /** The run, call by call. */
  lemma TwiceBookedRun(travel: Travel)
    ensures var m, calls := FreshDesk(), TwiceBooked(travel);
            var freed := MixedStep(MixedStep(MixedStep(MixedStep(m, calls[0]), calls[1]), calls[2]), calls[3]);
            && MixedRun(m, calls[..4]) == freed && MixedRun(m, calls[..5]) == MixedStep(freed, calls[4])
            && MixedRun(m, calls) == MixedStep(MixedStep(freed, calls[4]), calls[5])
  {
    var m, calls := FreshDesk(), TwiceBooked(travel);
    assert [] + [calls[0]] == calls[..1] && calls[..1] + [calls[1]] == calls[..2];
    assert calls[..2] + [calls[2]] == calls[..3] && calls[..3] + [calls[3]] == calls[..4];
    assert calls[..4] + [calls[4]] == calls[..5] && calls[..5] + [calls[5]] == calls;
    MixedRunAppend(m, [], calls[0]);
    MixedRunAppend(m, calls[..1], calls[1]);
    MixedRunAppend(m, calls[..2], calls[2]);
    MixedRunAppend(m, calls[..3], calls[3]);
    MixedRunAppend(m, calls[..4], calls[4]);
    MixedRunAppend(m, calls[..5], calls[5]);
  }

  /** From an empty calendar: two live appointments, and then a new request that still has one. */
  lemma RecordsCanBeBookedTwice(travel: Travel)
    ensures var calls := TwiceBooked(travel);
            && !NoSecondBooking(FreshDesk(), calls[..5])
            && Appointments(MixedRun(FreshDesk(), calls[..5]).calendar, 0) == 2
            && |MixedRun(FreshDesk(), calls).calendar.records| == 1
            && MixedRun(FreshDesk(), calls).calendar.records[0].status == NewRequest
            && Appointments(MixedRun(FreshDesk(), calls).calendar, 0) == 1
  {
    var calls := TwiceBooked(travel);
    var booked := FirstBooking(travel);
    var freed := SentBackDesk(booked, travel);
    assert LiveCount(freed.calendar.events, 0, 0) == 0 && Appointments(freed.calendar, 0) == 1;
    StepCounts(freed.calendar, calls[4].q, 0);
    assert !Refused(freed.calendar, calls[4].q);
    var again := MixedStep(freed, calls[4]);
    assert again.calendar.events[0] == freed.calendar.events[0];
    StepCounts(again.calendar, calls[5].q, 0);
    TwiceBookedRun(travel);
    MixedRunAppend(FreshDesk(), calls[..4], calls[4]);
    assert calls[..4] + [calls[4]] == calls[..5];
  }
}
