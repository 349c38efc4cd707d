/**
  The appraisal calendar: what one create, update or cancel call does to the events and to the
  equipment record behind them. The two travel buffers around an appointment are asymmetric, and
  the conflict scan reads only the appointments that start within a day of the proposed start.
 */
module Calendar {
  import opened Common
  import opened StatusMachine
  import opened Text

  const SCAN_RADIUS: Time := DAY
  const MIN_MINUTES := 15
  const MAX_MINUTES := 480
  const DEFAULT_MINUTES := 60

  datatype Event = Event(
    recordId: nat,
    appraiser: nat,
    start: Time,
    minutes: int,
    address: Option<string>,
    cancelledAt: Option<Time>)
  {
    function End(): Time {
      start + minutes * MINUTE
    }

    predicate Live() {
      cancelledAt.None?
    }

    function AsSlot(): Slot {
      Slot(appraiser, start, End(), address)
    }
  }

  /** A proposed appointment. */
  datatype Slot = Slot(appraiser: nat, start: Time, end: Time, address: Option<string>)

  datatype CalendarConflict = CalendarConflict(nextAvailableAt: Option<Time>, conflictingEventId: nat)

  /** Where travel times come from: the maps service (seconds, or nothing) and the configured fallback. */
  datatype Travel = Travel(drive: (string, string) -> Option<int>, fallbackMinutes: int)

  predicate ValidMinutes(minutes: int) {
    MIN_MINUTES <= minutes <= MAX_MINUTES
  }

  predicate ValidEvents(events: seq<Event>) {
    forall i :: 0 <= i < |events| ==> ValidMinutes(events[i].minutes)
  }

  function Buffer(travel: Travel, origin: Option<string>, destination: Option<string>): Time {
    if origin.None? || origin.value == "" || destination.None? || destination.value == "" then
      travel.fallbackMinutes * MINUTE
    else
      match travel.drive(origin.value, destination.value)
      case None => travel.fallbackMinutes * MINUTE
      case Some(seconds) => seconds * SECOND
  }

  predicate RangesOverlap(aStart: Time, aEnd: Time, bStart: Time, bEnd: Time) {
    aStart < bEnd && bStart < aEnd
  }

  /** The address is known. */
  predicate Given(address: Option<string>) {
    address.Some? && address.value != ""
  }

  /**
    `b` starts no earlier than `a` ends plus the drive from `a` to `b`, as the maps service gives it, or the fallback if
    an address is unknown or the service has no answer.
   */
  predicate FollowsOn(travel: Travel, a: Slot, b: Slot) {
    && a.end <= b.start
    && if Given(a.address) && Given(b.address) && travel.drive(a.address.value, b.address.value).Some? then
         a.end + travel.drive(a.address.value, b.address.value).value * SECOND <= b.start
       else
         a.end + travel.fallbackMinutes * MINUTE <= b.start
  }

  /** One person can keep both appointments. */
  predicate Compatible(travel: Travel, a: Slot, b: Slot) {
    FollowsOn(travel, a, b) || FollowsOn(travel, b, a)
  }

  /** What the scan answers on meeting `existing`, if anything. */
  function ConflictWith(travel: Travel, p: Slot, existing: Event, id: nat): (c: Option<CalendarConflict>)
    ensures p.start < p.end && ValidMinutes(existing.minutes) ==>
              (c.None? <==> Compatible(travel, p, existing.AsSlot()))
    ensures c.Some? && c.value.nextAvailableAt.Some? ==> p.start < c.value.nextAvailableAt.value
  {
    if RangesOverlap(p.start, p.end, existing.start, existing.End()) then
      Some(CalendarConflict(Some(existing.End()), id))
    else if existing.End() <= p.start then
      var earliestArrival := existing.End() + Buffer(travel, existing.address, p.address);
      if p.start < earliestArrival then Some(CalendarConflict(Some(earliestArrival), id)) else None
    else if p.end <= existing.start then
      var mustEndBy := existing.start - Buffer(travel, p.address, existing.address);
      if p.end > mustEndBy then Some(CalendarConflict(None, id)) else None
    else
      None
  }

  /** A live appointment of the slot's appraiser, other than the one being edited. */
  predicate Rival(events: seq<Event>, p: Slot, ignore: Option<nat>, i: nat) {
    && i < |events|
    && events[i].appraiser == p.appraiser
    && events[i].Live()
    && ignore != Some(i)
  }

  predicate InScan(p: Slot, e: Event) {
    p.start - SCAN_RADIUS <= e.start < p.start + SCAN_RADIUS
  }

  /** The windowed scan finds the slot taken. */
  predicate HasConflict(travel: Travel, events: seq<Event>, p: Slot, ignore: Option<nat>) {
    exists i | 0 <= i < |events| ::
      Rival(events, p, ignore, i) && InScan(p, events[i]) && !Compatible(travel, p, events[i].AsSlot())
  }

  /** Some live appointment of the appraiser, of any date, cannot be kept together with the slot. */
  predicate HasRivalAnywhere(travel: Travel, events: seq<Event>, p: Slot, ignore: Option<nat>) {
    exists i | 0 <= i < |events| ::
      Rival(events, p, ignore, i) && !Compatible(travel, p, events[i].AsSlot())
  }

  /** `c` is the answer for the earliest-starting appointment in the scan that stands in the way. */
  ghost predicate IsAnswer(
    travel: Travel, events: seq<Event>, p: Slot, ignore: Option<nat>, c: CalendarConflict)
  {
    var id := c.conflictingEventId;
    && Rival(events, p, ignore, id)
    && InScan(p, events[id])
    && ConflictWith(travel, p, events[id], id) == Some(c)
    && (forall i: nat :: Rival(events, p, ignore, i) && InScan(p, events[i]) && events[i].start < events[id].start
          ==> Compatible(travel, p, events[i].AsSlot()))
  }

  /** `rows` is an ORDER BY scheduled_at listing. */
  ghost predicate OrderedByStart(events: seq<Event>, rows: seq<nat>) {
    && (forall i :: 0 <= i < |rows| ==> rows[i] < |events|)
    && (forall i, j :: 0 <= i < j < |rows| ==> events[rows[i]].start <= events[rows[j]].start)
  }

  // ------------------------------------------------------------------------------------------
  // Requests
  // ------------------------------------------------------------------------------------------

  datatype Op =
    | Create(record: nat, appraiser: nat, start: Time, minutes: Option<int>, address: Option<string>)
    | Update(event: nat, newAppraiser: Option<nat>, newStart: Option<Time>, newMinutes: Option<int>,
             newAddress: Option<string>, setAddress: bool)
    | Cancel(event: nat, at: Time)

  /** One call, together with the travel times in force while it runs. */
  datatype Request = Request(travel: Travel, op: Op)

  datatype State = State(events: seq<Event>, records: seq<EquipmentRecord>, appraisers: set<nat>)

  function OrElse<T>(o: Option<T>, default: T): T {
    if o.Some? then o.value else default
  }

  /** `site_address or customer_location_text or ""`, stripped, with the empty string as "no address". */
  function ResolveAddress(site: Option<string>, location: Option<string>): Option<string> {
    var raw := if OrElse(site, "") != "" then site.value else OrElse(location, "");
    var stripped := Strip(raw);
    if stripped == "" then None else Some(stripped)
  }

  /** The errors raised before any scan or write, in the order the service checks them. */
  function Precheck(s: State, op: Op): Option<Error> {
    match op
    case Create(record, appraiser, _, minutes, _) =>
      if minutes.Some? && !ValidMinutes(minutes.value) then Some(Unprocessable)
      else if |s.records| <= record then Some(NotFound)
      else if s.records[record].status != NewRequest then Some(Unprocessable)
      else if appraiser !in s.appraisers then Some(Unprocessable)
      else None
    case Update(event, newAppraiser, _, newMinutes, _, _) =>
      if newMinutes.Some? && !ValidMinutes(newMinutes.value) then Some(Unprocessable)
      else if |s.events| <= event then Some(NotFound)
      else if !s.events[event].Live() then Some(Conflict)
      else
        var appraiser := OrElse(newAppraiser, s.events[event].appraiser);
        if appraiser != s.events[event].appraiser && appraiser !in s.appraisers then Some(Unprocessable)
        else None
    case Cancel(event, _) =>
      if |s.events| <= event then Some(NotFound)
      else if s.events[event].Live() && |s.records| <= s.events[event].recordId then Some(NotFound)
      else None
  }

  /** The event row a create or update call would leave behind. */
  function Proposed(s: State, op: Op): Event
    requires Precheck(s, op).None? && !op.Cancel?
  {
    match op
    case Create(record, appraiser, start, minutes, address) =>
      Event(record, appraiser, start, OrElse(minutes, DEFAULT_MINUTES),
            ResolveAddress(address, s.records[record].location), None)
    case Update(event, newAppraiser, newStart, newMinutes, newAddress, setAddress) =>
      var e := s.events[event];
      e.(appraiser := OrElse(newAppraiser, e.appraiser),
         start := OrElse(newStart, e.start),
         minutes := OrElse(newMinutes, e.minutes),
         address := if setAddress then newAddress else e.address)
  }

  predicate ScheduleChanged(old_: Event, new_: Event) {
    new_.appraiser != old_.appraiser || new_.start != old_.start || new_.minutes != old_.minutes
  }

  /** Whether the call runs the conflict scan; an address-only update does not. */
  predicate Scans(s: State, op: Op)
    requires Precheck(s, op).None?
  {
    match op
    case Create(_, _, _, _, _) => true
    case Update(event, _, _, _, _, _) => ScheduleChanged(s.events[event], Proposed(s, op))
    case Cancel(_, _) => false
  }

  function Ignored(op: Op): Option<nat> {
    if op.Update? then Some(op.event) else None
  }

  predicate Refused(s: State, q: Request)
    requires Precheck(s, q.op).None?
  {
    Scans(s, q.op) && HasConflict(q.travel, s.events, Proposed(s, q.op).AsSlot(), Ignored(q.op))
  }

  /** The state after the call's writes. */
  function Written(s: State, op: Op): State
    requires Precheck(s, op).None?
  {
    match op
    case Create(record, _, _, _, _) =>
      s.(events := s.events + [Proposed(s, op)],
         records := s.records[record := Transition(s.records[record], AppraisalScheduled).value])
    case Update(event, _, _, _, _, _) =>
      s.(events := s.events[event := Proposed(s, op)])
    case Cancel(event, at) =>
      var e := s.events[event];
      if !e.Live() then s
      else s.(events := s.events[event := e.(cancelledAt := Some(at))],
              records := s.records[e.recordId := RevertOnCancel(s.records[e.recordId])])
  }

  function Step(s: State, q: Request): State {
    if Precheck(s, q.op).Some? || Refused(s, q) then s else Written(s, q.op)
  }

  function Run(s: State, requests: seq<Request>): State
    decreases |requests|
  {
    if requests == [] then s else Run(Step(s, requests[0]), requests[1..])
  }

  datatype Outcome = Done(eventId: nat) | Busy(conflict: CalendarConflict) | Failed(error: Error)

  /** The response `r` is the one the service owes for request `q` in state `s`. */
  ghost predicate Answers(s: State, q: Request, r: Outcome) {
    match Precheck(s, q.op)
    case Some(error) => r == Failed(error)
    case None =>
      if Refused(s, q) then
        r.Busy? && IsAnswer(q.travel, s.events, Proposed(s, q.op).AsSlot(), Ignored(q.op), r.conflict)
      else
        r == Done(if q.op.Create? then |s.events| else q.op.event)
  }

  lemma InsertedOrder(events: seq<Event>, rows: seq<nat>, k: nat, n: nat)
    requires OrderedByStart(events, rows) && k <= |rows| && n < |events|
    requires k > 0 ==> events[rows[k - 1]].start <= events[n].start
    requires forall j :: k <= j < |rows| ==> events[n].start < events[rows[j]].start
    ensures OrderedByStart(events, rows[..k] + [n] + rows[k..])
  {
    var r := rows[..k] + [n] + rows[k..];
    forall i | 0 <= i < |r| ensures r[i] == if i < k then rows[i] else if i == k then n else rows[i - 1] {}
    forall i | 0 <= i < k ensures events[rows[i]].start <= events[n].start {
      assert events[rows[i]].start <= events[rows[k - 1]].start;
    }
  }

  lemma InsertedMembers(rows: seq<nat>, k: nat, n: nat)
    requires k <= |rows|
    ensures forall i: nat :: i in rows[..k] + [n] + rows[k..] <==> i in rows || i == n
  {
    assert rows == rows[..k] + rows[k..];
  }

  // ------------------------------------------------------------------------------------------
  // The service
  // ------------------------------------------------------------------------------------------

  class CalendarService {
    var events: seq<Event>
    var records: seq<EquipmentRecord>
    const appraisers: set<nat>

    function Current(): State
      reads this
    {
      State(events, records, appraisers)
    }

    constructor (records: seq<EquipmentRecord>, appraisers: set<nat>)
      ensures Current() == State([], records, appraisers)
    {
      this.events := [];
      this.records := records;
      this.appraisers := appraisers;
    }

    /** SELECT … WHERE appraiser, not cancelled, start in the window … ORDER BY start. */
    method SelectWindow(p: Slot, ignore: Option<nat>) returns (rows: seq<nat>)
      ensures forall i: nat :: i in rows <==> Rival(events, p, ignore, i) && InScan(p, events[i])
      ensures OrderedByStart(events, rows)
    {
      rows := [];
      for n := 0 to |events|
        invariant forall i: nat :: i in rows <==> i < n && Rival(events, p, ignore, i) && InScan(p, events[i])
        invariant OrderedByStart(events, rows)
      {
        if Rival(events, p, ignore, n) && InScan(p, events[n]) {
          rows := InsertByStart(rows, n);
        }
      }
    }

    method InsertByStart(rows: seq<nat>, n: nat) returns (r: seq<nat>)
      requires n < |events| && OrderedByStart(events, rows)
      ensures forall i: nat :: i in r <==> i in rows || i == n
      ensures OrderedByStart(events, r)
    {
      var k := |rows|;  // rows before k start no later than n
      while k > 0 && events[n].start < events[rows[k - 1]].start
        invariant 0 <= k <= |rows|
        invariant forall j :: k <= j < |rows| ==> events[n].start < events[rows[j]].start
      {
        k := k - 1;
      }
      r := rows[..k] + [n] + rows[k..];
      InsertedMembers(rows, k, n);
      InsertedOrder(events, rows, k, n);
    }

    method CheckConflict(travel: Travel, p: Slot, ignore: Option<nat>) returns (c: Option<CalendarConflict>)
      requires p.start < p.end && ValidEvents(events)
      ensures c.Some? <==> HasConflict(travel, events, p, ignore)
      ensures c.Some? ==> IsAnswer(travel, events, p, ignore, c.value)
    {
      var rows := SelectWindow(p, ignore);
      for k := 0 to |rows|
        invariant forall j :: 0 <= j < k ==> Compatible(travel, p, events[rows[j]].AsSlot())
      {
        assert rows[k] in rows;
        c := ConflictWith(travel, p, events[rows[k]], rows[k]);
        if c.Some? {
          forall i: nat | Rival(events, p, ignore, i) && InScan(p, events[i]) && events[i].start < events[rows[k]].start
            ensures Compatible(travel, p, events[i].AsSlot())
          {
            assert i in rows;
            var j :| 0 <= j < |rows| && rows[j] == i;
            assert j < k;
          }
          return;
        }
      }
      c := None;
      forall i: nat | Rival(events, p, ignore, i) && InScan(p, events[i])
        ensures Compatible(travel, p, events[i].AsSlot())
      {
        assert i in rows;
      }
    }

    method CreateEvent(travel: Travel, record: nat, appraiser: nat, start: Time, minutes: Option<int>,
                       address: Option<string>) returns (r: Outcome)
      requires ValidEvents(events)
      modifies this
      ensures var q := Request(travel, Create(record, appraiser, start, minutes, address));
              Current() == Step(old(Current()), q) && Answers(old(Current()), q, r)
    {
      ghost var s, op := Current(), Create(record, appraiser, start, minutes, address);
      if minutes.Some? && !ValidMinutes(minutes.value) {
        return Failed(Unprocessable);
      }
      if |records| <= record {
        return Failed(NotFound);
      }
      if records[record].status != NewRequest || appraiser !in appraisers {
        return Failed(Unprocessable);
      }
      assert Precheck(s, op).None?;
      var duration := OrElse(minutes, DEFAULT_MINUTES);
      var resolved := ResolveAddress(address, records[record].location);
      var event := Event(record, appraiser, start, duration, resolved, None);
      assert event == Proposed(s, op);
      var conflict := CheckConflict(travel, event.AsSlot(), None);
      if conflict.Some? {
        return Busy(conflict.value);
      }
      r := Done(|events|);
      events := events + [event];
      var moved := Transition(records[record], AppraisalScheduled);
      records := records[record := moved.value];
    }

    method UpdateEvent(travel: Travel, event: nat, newAppraiser: Option<nat>, newStart: Option<Time>,
                       newMinutes: Option<int>, newAddress: Option<string>, setAddress: bool)
      returns (r: Outcome)
      requires ValidEvents(events)
      modifies this
      ensures var q := Request(travel, Update(event, newAppraiser, newStart, newMinutes, newAddress, setAddress));
              Current() == Step(old(Current()), q) && Answers(old(Current()), q, r)
      ensures r.Done? ==>
                && |events| == |old(events)| && event < |events|
                && events == old(events)[event := events[event]]
                && events[event].start == (if newStart.Some? then newStart.value else old(events)[event].start)
                && events[event].minutes == (if newMinutes.Some? then newMinutes.value else old(events)[event].minutes)
                && events[event].appraiser ==
                   (if newAppraiser.Some? then newAppraiser.value else old(events)[event].appraiser)
                && events[event].address == (if setAddress then newAddress else old(events)[event].address)
      ensures !r.Done? ==> events == old(events)
    {
      ghost var s, op := Current(), Update(event, newAppraiser, newStart, newMinutes, newAddress, setAddress);
      if newMinutes.Some? && !ValidMinutes(newMinutes.value) {
        return Failed(Unprocessable);
      }
      if |events| <= event {
        return Failed(NotFound);
      }
      var e := events[event];
      if !e.Live() {
        return Failed(Conflict);
      }
      var appraiser := OrElse(newAppraiser, e.appraiser);
      if appraiser != e.appraiser && appraiser !in appraisers {
        return Failed(Unprocessable);
      }
      assert Precheck(s, op).None?;
      var edited := e.(appraiser := appraiser,
                       start := OrElse(newStart, e.start),
                       minutes := OrElse(newMinutes, e.minutes),
                       address := if setAddress then newAddress else e.address);
      assert edited == Proposed(s, op);
      if ScheduleChanged(e, edited) {
        var conflict := CheckConflict(travel, edited.AsSlot(), Some(event));
        if conflict.Some? {
          return Busy(conflict.value);
        }
      }
      events := events[event := edited];
      r := Done(event);
    }

    method CancelEvent(travel: Travel, event: nat, now: Time) returns (r: Outcome)
      modifies this
      ensures var q := Request(travel, Cancel(event, now));
              Current() == Step(old(Current()), q) && Answers(old(Current()), q, r)
    {
      if |events| <= event {
        return Failed(NotFound);
      }
      var e := events[event];
      if !e.Live() {
        return Done(event);
      }
      if |records| <= e.recordId {
        return Failed(NotFound);
      }
      events := events[event := e.(cancelledAt := Some(now))];
      if records[e.recordId].status == AppraisalScheduled {
        records := records[e.recordId := records[e.recordId].(status := NewRequest)];
      }
      r := Done(event);
    }
  }
}
