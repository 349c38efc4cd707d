/**
  What the calendar's calls mean to the people in the appointments, in numbers (microseconds) and in the answers of the
  maps service: when one can get from one appointment to the next, and what an accepted or refused call leaves.
 */
module CalendarLaws {
  import opened Common
  import opened StatusMachine
  import opened Calendar
  import opened CalendarSafety
  import opened Labels
  import Text

  /** When the appointment ends. */
  function Finish(e: Event): int {
    e.start + e.minutes * 60_000_000
  }

  /**
    `b` leaves time to drive there from `a`: as long as the maps service says the drive from `a`'s address to `b`'s
    takes, or the fallback, if an address is missing or the service has no answer.
   */
  predicate Reaches(travel: Travel, a: Event, b: Event) {
    && Finish(a) <= b.start
    && if Given(a.address) && Given(b.address) && travel.drive(a.address.value, b.address.value).Some? then
         Finish(a) + travel.drive(a.address.value, b.address.value).value * 1_000_000 <= b.start
       else
         Finish(a) + travel.fallbackMinutes * 60_000_000 <= b.start
  }

  lemma FollowsOnMeansReaches(travel: Travel, a: Event, b: Event)
    ensures FollowsOn(travel, a.AsSlot(), b.AsSlot()) <==> Reaches(travel, a, b)
  {
  }

  /** Two appointments can both be kept exactly if one leaves time to drive to the other. */
  lemma CompatibleMeansReaches(travel: Travel, a: Event, b: Event)
    ensures Compatible(travel, a.AsSlot(), b.AsSlot()) <==> Reaches(travel, a, b) || Reaches(travel, b, a)
  {
    FollowsOnMeansReaches(travel, a, b);
    FollowsOnMeansReaches(travel, b, a);
  }

  // ------------------------------------------------------------------------------------------
  // The answer to a refused call
  // ------------------------------------------------------------------------------------------

  /** The event starts within a day of the proposal. */
  predicate Near(p: Event, e: Event) {
    p.start - 86_400_000_000 <= e.start < p.start + 86_400_000_000
  }

  /**
    The conflict that is reported names a live appointment of the same appraiser, near the proposal, which cannot be
    kept with it. If they overlap, the hint is when it ends; if it ends before the proposal begins, the hint is that
    plus the drive to the proposal; if the proposal comes first, there is no hint.
   */
  lemma {:induction false} AnswerSaysWhy(
    travel: Travel, events: seq<Event>, p: Event, ignore: Option<nat>, c: CalendarConflict)
    requires ValidEvents(events) && p.minutes >= 15 && IsAnswer(travel, events, p.AsSlot(), ignore, c)
    ensures c.conflictingEventId < |events|
    ensures var e := events[c.conflictingEventId];
            && e.appraiser == p.appraiser && e.cancelledAt.None? && Near(p, e) && ignore != Some(c.conflictingEventId)
            && !Reaches(travel, e, p) && !Reaches(travel, p, e)
            && (match c.nextAvailableAt
                case None => Finish(p) <= e.start
                case Some(hint) =>
                  && e.start < Finish(p)
                  && (p.start < Finish(e) ==> hint == Finish(e))
                  && (Finish(e) <= p.start ==>
                        var arrived := p.(start := hint);
                        Reaches(travel, e, arrived) && !Reaches(travel, e, arrived.(start := hint - 1))))
  {
    CompatibleMeansReaches(travel, events[c.conflictingEventId], p);
    CompatibleMeansReaches(travel, p, events[c.conflictingEventId]);
  }

  // ------------------------------------------------------------------------------------------
  // Creating an appointment
  // ------------------------------------------------------------------------------------------

  predicate Accepted(s: State, q: Request) {
    Precheck(s, q.op).None? && !Refused(s, q)
  }

  /** What a new appointment's address is made from: the site's address, or else the record's location. */
  function AddressSource(site: Option<string>, location: Option<string>): string {
    if Given(site) then site.value else if location.Some? then location.value else ""
  }

  /** The address is that, trimmed, if anything is left. */
  ghost predicate ResolvesTo(source: string, address: Option<string>) {
    if AllWhite(source) then address.None? else address.Some? && Trimmed(source, address.value)
  }

  lemma ResolvedAddress(site: Option<string>, location: Option<string>)
    ensures ResolvesTo(AddressSource(site, location), ResolveAddress(site, location))
  {
    var source := AddressSource(site, location);
    TrimmedIsStrip(source, Text.Strip(source));
    BlankIff(source);
    assert Text.Normalize(source) == "" <==> Text.Strip(source) == "" by {
      assert |Text.Lower(Text.Strip(source))| == |Text.Strip(source)|;
    }
  }

  /** The checks before a create, and what each answers. */
  lemma {:induction false} CreateChecks(s: State, op: Op)
    requires op.Create?
    ensures Precheck(s, op).None? <==>
              && (op.minutes.Some? ==> 15 <= op.minutes.value <= 480)
              && op.record < |s.records| && s.records[op.record].status == NewRequest && op.appraiser in s.appraisers
    ensures Precheck(s, op) == Some(NotFound) <==>
              (op.minutes.Some? ==> 15 <= op.minutes.value <= 480) && |s.records| <= op.record
    ensures Precheck(s, op).Some? ==> Precheck(s, op).value == NotFound || Precheck(s, op).value == Unprocessable
  {
  }

  /** An accepted create appends one appointment, moves its record to `appraisal_scheduled`, and does nothing else. */
  lemma {:induction false} CreateWrites(s: State, q: Request)
    requires q.op.Create? && Accepted(s, q)
    ensures var t, op := Step(s, q), q.op;
            && |t.events| == |s.events| + 1 && t.events[..|s.events|] == s.events && t.appraisers == s.appraisers
            && (var e := t.events[|s.events|];
                && e.recordId == op.record && e.appraiser == op.appraiser && e.start == op.start && e.cancelledAt.None?
                && e.minutes == (if op.minutes.Some? then op.minutes.value else 60)
                && ResolvesTo(AddressSource(op.address, s.records[op.record].location), e.address))
            && |t.records| == |s.records|
            && (forall r :: 0 <= r < |s.records| && r != op.record ==> t.records[r] == s.records[r])
            && t.records[op.record].status == AppraisalScheduled
            && t.records[op.record].log
               == s.records[op.record].log + [StatusEvent(NewRequest, AppraisalScheduled)]
  {
    ResolvedAddress(q.op.address, s.records[q.op.record].location);
  }

  /**
    Against one live appointment of the appraiser, a create that passes its checks is accepted if and only if the two
    can both be kept, or start a day or more apart.
   */
  lemma {:induction false} OneRivalAcceptedIff(s: State, q: Request)
    requires q.op.Create? && Precheck(s, q.op).None? && ValidEvents(s.events)
    requires |s.events| == 1 && s.events[0].cancelledAt.None? && s.events[0].appraiser == q.op.appraiser
    ensures var p := Event(q.op.record, q.op.appraiser, q.op.start,
                           if q.op.minutes.Some? then q.op.minutes.value else 60,
                           ResolveAddress(q.op.address, s.records[q.op.record].location), Option.None);
            Accepted(s, q) <==>
              Reaches(q.travel, s.events[0], p) || Reaches(q.travel, p, s.events[0]) || !Near(p, s.events[0])
  {
    var p := Proposed(s, q.op);
    CompatibleMeansReaches(q.travel, p, s.events[0]);
    assert Rival(s.events, p.AsSlot(), Option.None, 0);
  }

  // ------------------------------------------------------------------------------------------
  // Editing and cancelling
  // ------------------------------------------------------------------------------------------

  /** The checks before an edit, and what each answers. */
  lemma {:induction false} UpdateChecks(s: State, op: Op)
    requires op.Update?
    ensures Precheck(s, op).None? <==>
              && (op.newMinutes.Some? ==> 15 <= op.newMinutes.value <= 480)
              && op.event < |s.events| && s.events[op.event].cancelledAt.None?
              && (op.newAppraiser.Some? ==>
                    op.newAppraiser.value == s.events[op.event].appraiser || op.newAppraiser.value in s.appraisers)
    ensures Precheck(s, op) == Some(Conflict) <==>
              && (op.newMinutes.Some? ==> 15 <= op.newMinutes.value <= 480)
              && op.event < |s.events| && s.events[op.event].cancelledAt.Some?
    ensures Precheck(s, op) == Some(NotFound) <==>
              (op.newMinutes.Some? ==> 15 <= op.newMinutes.value <= 480) && |s.events| <= op.event
    ensures Precheck(s, op).Some? ==> Precheck(s, op).value in {NotFound, Conflict, Unprocessable}
  {
  }

  /** An accepted edit gives each field its requested value, keeps the others, and touches no other row. */
  lemma {:induction false} UpdateWrites(s: State, q: Request)
    requires q.op.Update? && Accepted(s, q)
    ensures var t, op := Step(s, q), q.op;
            && t.records == s.records && t.appraisers == s.appraisers && |t.events| == |s.events|
            && (forall i :: 0 <= i < |s.events| && i != op.event ==> t.events[i] == s.events[i])
            && (var before, after := s.events[op.event], t.events[op.event];
                && after.recordId == before.recordId && after.cancelledAt.None?
                && (op.newAppraiser.Some? ==> after.appraiser == op.newAppraiser.value)
                && (op.newAppraiser.None? ==> after.appraiser == before.appraiser)
                && (op.newStart.Some? ==> after.start == op.newStart.value)
                && (op.newStart.None? ==> after.start == before.start)
                && (op.newMinutes.Some? ==> after.minutes == op.newMinutes.value)
                && (op.newMinutes.None? ==> after.minutes == before.minutes)
                && (op.setAddress ==> after.address == op.newAddress)
                && (!op.setAddress ==> after.address == before.address))
  {
  }

  /** A cancellation stamps the appointment, and takes its record back if that was scheduled, without a log entry. */
  lemma {:induction false} CancelWrites(s: State, q: Request)
    requires q.op.Cancel? && Accepted(s, q) && s.events[q.op.event].cancelledAt.None?
    ensures var t, e := Step(s, q), s.events[q.op.event];
            && t.events == s.events[q.op.event := e.(cancelledAt := Some(q.op.at))] && |t.records| == |s.records|
            && (forall r :: 0 <= r < |s.records| && r != e.recordId ==> t.records[r] == s.records[r])
            && t.records[e.recordId].log == s.records[e.recordId].log
            && t.records[e.recordId].status ==
               (if s.records[e.recordId].status == AppraisalScheduled then NewRequest else s.records[e.recordId].status)
  {
  }

  /** The create asks for the slot that event `i` of `s` holds. */
  predicate AsksForSlot(s: State, t: State, op: Op, i: nat)
    requires i < |s.events| && op.Create? && op.record < |t.records|
  {
    && op.appraiser == s.events[i].appraiser && op.start == s.events[i].start
    && op.minutes == Some(s.events[i].minutes)
    && ResolveAddress(op.address, t.records[op.record].location) == s.events[i].address
  }

  /**
    An accepted edit vacates the slot it moves from: on a buffered calendar, a create for that very slot is then
    accepted if and only if the appointment, where it has moved to, can be kept with one in the old slot, or has passed
    to another appraiser.
   */
  lemma {:induction false} VacatedSlotIsFreeIff(s: State, edit: Request, create: Request)
    requires BoundedTravel(edit.travel) && ValidEvents(s.events) && Buffered(edit.travel, s.events)
    requires edit.op.Update? && Accepted(s, edit) && create.op.Create? && create.travel == edit.travel
    requires Precheck(Step(s, edit), create.op).None? && AsksForSlot(s, Step(s, edit), create.op, edit.op.event)
    ensures var old_, moved := s.events[edit.op.event], Step(s, edit).events[edit.op.event];
            Accepted(Step(s, edit), create) <==>
              || moved.appraiser != old_.appraiser
              || Reaches(edit.travel, old_, moved) || Reaches(edit.travel, moved, old_)
  {
    var t, i := Step(s, edit), edit.op.event;
    var p, travel := Proposed(t, create.op), edit.travel;
    StepKeepsDurations(s, edit);
    ScanIsComplete(travel, t.events, p, Option.None);
    forall j: nat | j < |t.events| && j != i && Rival(t.events, p.AsSlot(), Option.None, j)
      ensures Compatible(travel, p.AsSlot(), t.events[j].AsSlot())
    {
      var lo, hi := if j < i then j else i, if j < i then i else j;
      assert SameDiary(s.events[lo], s.events[hi]);
      CompatibleMeansReaches(travel, s.events[lo], s.events[hi]);
      CompatibleMeansReaches(travel, p, t.events[j]);
    }
    CompatibleMeansReaches(travel, p, t.events[i]);
    assert Rival(t.events, p.AsSlot(), Option.None, i) <==> t.events[i].appraiser == s.events[i].appraiser;
  }

  // ------------------------------------------------------------------------------------------
  // Over runs
  // ------------------------------------------------------------------------------------------

  predicate OneDiary(a: Event, b: Event) {
    a.appraiser == b.appraiser && a.cancelledAt.None? && b.cancelledAt.None?
  }

  /** In every run, of two live appointments of one appraiser one ends before the other starts. */
  lemma {:induction false} RunsKeepAppointmentsApart(s: State, requests: seq<Request>, i: nat, j: nat)
    requires s.events == []
    requires i < |Run(s, requests).events| && j < |Run(s, requests).events| && i != j
    requires OneDiary(Run(s, requests).events[i], Run(s, requests).events[j])
    ensures var a, b := Run(s, requests).events[i], Run(s, requests).events[j];
            Finish(a) <= b.start || Finish(b) <= a.start
  {
    RunsNeverDoubleBook(s, requests);
    var lo, hi := if i < j then i else j, if i < j then j else i;
    assert SameDiary(Run(s, requests).events[lo], Run(s, requests).events[hi]);
  }

  lemma {:induction false} BufferedAtTheEnd(travel: Travel, s: State, requests: seq<Request>)
    requires BufferedThroughout(travel, s, requests)
    ensures Buffered(travel, Run(s, requests).events)
    decreases |requests|
  {
    if requests != [] {
      BufferedAtTheEnd(travel, Step(s, requests[0]), requests[1..]);
    }
  }

  /**
    With travel fixed and at most 960 minutes, in every run without an unchecked clash, whoever has one appointment
    after another has the time to drive from the first to the second.
   */
  lemma {:induction false} RunsLeaveTimeToDrive(travel: Travel, s: State, requests: seq<Request>, i: nat, j: nat)
    requires BoundedTravel(travel) && s.events == [] && (forall q :: q in requests ==> q.travel == travel)
    requires NoUncheckedClash(s, requests)
    requires i < |Run(s, requests).events| && j < |Run(s, requests).events|
    requires OneDiary(Run(s, requests).events[i], Run(s, requests).events[j])
    requires Finish(Run(s, requests).events[i]) <= Run(s, requests).events[j].start
    ensures Reaches(travel, Run(s, requests).events[i], Run(s, requests).events[j])
  {
    RunsStayBufferedIff(travel, s, requests);
    BufferedAtTheEnd(travel, s, requests);
    RunsNeverDoubleBook(s, requests);
    var events := Run(s, requests).events;
    assert ValidMinutes(events[i].minutes) && ValidMinutes(events[j].minutes);
    var lo, hi := if i < j then i else j, if i < j then j else i;
    assert lo < hi && SameDiary(events[lo], events[hi]);
    CompatibleMeansReaches(travel, events[lo], events[hi]);
  }

  // ------------------------------------------------------------------------------------------
  // One-way traffic
  // ------------------------------------------------------------------------------------------

  /** From A to B it takes half an hour, from B to A an hour and a half; elsewhere the fallback of one hour applies. */
  function OneWay(): Travel {
    Travel((o, d) => if o == "A" && d == "B" then Some(1800) else if o == "B" && d == "A" then Some(5400) else None, 60)
  }

  /** An hour at `first` from 0, and an hour at `second` that starts `gap` minutes after that ends. */
  function TwoVisits(first: Option<string>, second: Option<string>, gap: int): (Request, Request) {
    (Request(OneWay(), Create(0, 7, 0, Option.None, first)),
     Request(OneWay(), Create(1, 7, (60 + gap) * 60_000_000, Option.None, second)))
  }

  lemma SiteNames()
    ensures ResolveAddress(Some("A"), Option.None) == Some("A") && ResolveAddress(Some("B"), Option.None) == Some("B")
    ensures ResolveAddress(Option.None, Option.None) == Option.None
  {
    assert Text.LeftStrip("A") == "A" && Text.RightStrip("A") == "A";
    assert Text.LeftStrip("B") == "B" && Text.RightStrip("B") == "B";
    assert Text.LeftStrip("") == "" && Text.RightStrip("") == "";
  }

  predicate Site(address: Option<string>) {
    address == Some("A") || address == Some("B") || address == Option.None
  }

  lemma FirstVisit(first: Option<string>, second: Option<string>, gap: int)
    requires Site(first)
    ensures var s, q := EmptyCalendar(2, {7}), TwoVisits(first, second, gap).0;
            && Accepted(s, q) && Step(s, q).events == [Event(0, 7, 0, 60, first, Option.None)]
            && |Step(s, q).records| == 2 && Step(s, q).records[1] == s.records[1] && Step(s, q).appraisers == {7}
  {
    SiteNames();
  }

  /** The minutes it takes from `first` to `second`. */
  function Minutes(first: Option<string>, second: Option<string>): int {
    if first == Some("A") && second == Some("B") then 30
    else if first == Some("B") && second == Some("A") then 90
    else 60
  }

  /**
    From an empty calendar, a second visit `gap` minutes after the first (from none up to seven hours) is accepted if
    and only if the gap is as long as the drive in that direction, or as the fallback where there is none to ask for.
   */
  lemma {:induction false} SecondVisitAcceptedIff(first: Option<string>, second: Option<string>, gap: int)
    requires Site(first) && Site(second) && 0 <= gap <= 420
    ensures var s, a, b := EmptyCalendar(2, {7}), TwoVisits(first, second, gap).0, TwoVisits(first, second, gap).1;
            Accepted(s, a) && (Accepted(Step(s, a), b) <==> Minutes(first, second) <= gap)
  {
    var s, a, b := EmptyCalendar(2, {7}), TwoVisits(first, second, gap).0, TwoVisits(first, second, gap).1;
    FirstVisit(first, second, gap);
    SiteNames();
    assert ValidEvents(Step(s, a).events);
    OneRivalAcceptedIff(Step(s, a), b);
  }
}
