/** What every run of the calendar keeps, and exactly when it keeps it. */
module CalendarSafety {
  import opened Common
  import opened StatusMachine
  import opened Calendar
  import opened Text

  /** The largest travel buffer for which a scan of one day either way sees every rival. */
  const MAX_BUFFER: Time := 960 * MINUTE

  ghost predicate BoundedTravel(travel: Travel) {
    forall origin, destination :: Buffer(travel, origin, destination) <= MAX_BUFFER
  }

  predicate SameDiary(a: Event, b: Event) {
    a.Live() && b.Live() && a.appraiser == b.appraiser
  }

  /** One appraiser's live appointments never overlap. */
  ghost predicate NoDoubleBooking(events: seq<Event>) {
    forall i, j :: 0 <= i < j < |events| && SameDiary(events[i], events[j]) ==>
      !RangesOverlap(events[i].start, events[i].End(), events[j].start, events[j].End())
  }

  /** One appraiser can drive from each live appointment to every later one in time. */
  ghost predicate Buffered(travel: Travel, events: seq<Event>) {
    forall i, j :: 0 <= i < j < |events| && SameDiary(events[i], events[j]) ==>
      Compatible(travel, events[i].AsSlot(), events[j].AsSlot())
  }

  // ------------------------------------------------------------------------------------------
  // The one-day scan and the full scan
  // ------------------------------------------------------------------------------------------

  /** Outside the scan window an eight-hour appointment cannot overlap. */
  lemma OutOfScanApart(p: Event, e: Event)
    requires ValidMinutes(p.minutes) && ValidMinutes(e.minutes) && !InScan(p.AsSlot(), e)
    ensures !RangesOverlap(p.start, p.End(), e.start, e.End())
  {
  }

  /** Outside the scan window nothing within the buffer bound can be incompatible. */
  lemma OutOfScanCompatible(travel: Travel, p: Event, e: Event)
    requires ValidMinutes(p.minutes) && ValidMinutes(e.minutes) && !InScan(p.AsSlot(), e)
    requires BoundedTravel(travel)
    ensures Compatible(travel, p.AsSlot(), e.AsSlot())
  {
    assert Buffer(travel, p.address, e.address) <= MAX_BUFFER;
    assert Buffer(travel, e.address, p.address) <= MAX_BUFFER;
  }

  /** With buffers of at most 960 minutes, the windowed scan finds a conflict exactly when one exists at any date. */
  lemma {:induction false} ScanIsComplete(travel: Travel, events: seq<Event>, p: Event, ignore: Option<nat>)
    requires BoundedTravel(travel) && ValidEvents(events) && ValidMinutes(p.minutes)
    ensures HasConflict(travel, events, p.AsSlot(), ignore) <==> HasRivalAnywhere(travel, events, p.AsSlot(), ignore)
  {
    forall i: nat | Rival(events, p.AsSlot(), ignore, i) && !InScan(p.AsSlot(), events[i])
      ensures Compatible(travel, p.AsSlot(), events[i].AsSlot())
    {
      OutOfScanCompatible(travel, p, events[i]);
    }
  }

  /** Buffers are whole seconds. */
  lemma WholeSeconds(travel: Travel, origin: Option<string>, destination: Option<string>)
    ensures Buffer(travel, origin, destination) % SECOND == 0
  {
    assert MINUTE == 60 * SECOND;
  }

  /**
    960 minutes is the exact bound: for any travel times, the windowed scan agrees with the full one on every calendar
    if and only if no buffer is over 960 minutes.
   */
  lemma {:induction false} ScanBoundIsExact(travel: Travel)
    ensures (forall events, p: Event, ignore | ValidEvents(events) && ValidMinutes(p.minutes) ::
               HasConflict(travel, events, p.AsSlot(), ignore) <==>
               HasRivalAnywhere(travel, events, p.AsSlot(), ignore))
            <==> BoundedTravel(travel)
  {
    if BoundedTravel(travel) {
      forall events, p: Event, ignore | ValidEvents(events) && ValidMinutes(p.minutes)
        ensures HasConflict(travel, events, p.AsSlot(), ignore) <==>
                HasRivalAnywhere(travel, events, p.AsSlot(), ignore)
      {
        ScanIsComplete(travel, events, p, ignore);
      }
    } else {
      var origin, destination :| Buffer(travel, origin, destination) > MAX_BUFFER;
      WholeSeconds(travel, origin, destination);
      var missed := Event(0, 0, -DAY - 1, MAX_MINUTES, origin, Option.None);
      var p := Event(1, 0, 0, DEFAULT_MINUTES, destination, Option.None);
      assert !InScan(p.AsSlot(), missed);
      assert !HasConflict(travel, [missed], p.AsSlot(), Option.None);
      assert Rival([missed], p.AsSlot(), Option.None, 0) && !Compatible(travel, p.AsSlot(), [missed][0].AsSlot());
      assert HasRivalAnywhere(travel, [missed], p.AsSlot(), Option.None);
    }
  }

  // ------------------------------------------------------------------------------------------
  // No double booking, whatever the travel times
  // ------------------------------------------------------------------------------------------

  /** Durations stay within the schema's bounds. */
  lemma StepKeepsDurations(s: State, q: Request)
    requires ValidEvents(s.events)
    ensures ValidEvents(Step(s, q).events)
  {
  }

  /** A row placed at index `k` is apart from every other row of its diary. */
  ghost predicate ApartAt(events: seq<Event>, k: nat)
    requires k < |events|
  {
    forall i :: 0 <= i < |events| && i != k && SameDiary(events[i], events[k]) ==>
      !RangesOverlap(events[i].start, events[i].End(), events[k].start, events[k].End())
  }

  lemma AcceptedIsApart(s: State, q: Request)
    requires ValidEvents(s.events) && NoDoubleBooking(s.events)
    requires Precheck(s, q.op).None? && !Refused(s, q) && !q.op.Cancel?
    ensures var k := if q.op.Create? then |s.events| else q.op.event;
            ApartAt(Written(s, q.op).events, k)
  {
    var p := Proposed(s, q.op);
    var k := if q.op.Create? then |s.events| else q.op.event;
    var after := Written(s, q.op).events;
    assert after[k] == p;
    forall i: nat | i < |after| && i != k && SameDiary(after[i], p)
      ensures !RangesOverlap(after[i].start, after[i].End(), p.start, p.End())
    {
      assert after[i] == s.events[i];
      if Scans(s, q.op) {
        assert Rival(s.events, p.AsSlot(), Ignored(q.op), i);
        if !InScan(p.AsSlot(), s.events[i]) {
          OutOfScanApart(p, s.events[i]);
        }
      }
    }
  }

  lemma StepKeepsNoDoubleBooking(s: State, q: Request)
    requires ValidEvents(s.events) && NoDoubleBooking(s.events)
    ensures NoDoubleBooking(Step(s, q).events)
  {
    if Precheck(s, q.op).None? && !Refused(s, q) && !q.op.Cancel? {
      AcceptedIsApart(s, q);
    }
  }

  /** In every run, with travel times that may change from call to call, no appraiser is ever double booked. */
  lemma {:induction false} RunsNeverDoubleBook(s: State, requests: seq<Request>)
    requires ValidEvents(s.events) && NoDoubleBooking(s.events)
    ensures ValidEvents(Run(s, requests).events) && NoDoubleBooking(Run(s, requests).events)
    decreases |requests|
  {
    if requests != [] {
      StepKeepsDurations(s, requests[0]);
      StepKeepsNoDoubleBooking(s, requests[0]);
      RunsNeverDoubleBook(Step(s, requests[0]), requests[1..]);
    }
  }

  // ------------------------------------------------------------------------------------------
  // Travel buffers
  // ------------------------------------------------------------------------------------------

  /**
    The call edits only the address (so no scan runs), although the same slot at the new address would have been
    refused. A caller can evaluate this before the call.
   */
  predicate UncheckedClash(s: State, q: Request) {
    && Precheck(s, q.op).None?
    && q.op.Update?
    && !Scans(s, q.op)
    && HasConflict(q.travel, s.events, Proposed(s, q.op).AsSlot(), Ignored(q.op))
  }

  ghost predicate CompatibleAt(travel: Travel, events: seq<Event>, k: nat)
    requires k < |events|
  {
    forall i :: 0 <= i < |events| && i != k && SameDiary(events[i], events[k]) ==>
      Compatible(travel, events[i].AsSlot(), events[k].AsSlot())
  }

  /** A create or update leaves its own row compatible with the diary exactly when a scan of that row finds nothing. */
  lemma WrittenRowCompatible(s: State, q: Request)
    requires BoundedTravel(q.travel) && ValidEvents(s.events)
    requires Precheck(s, q.op).None? && !q.op.Cancel?
    ensures var k := if q.op.Create? then |s.events| else q.op.event;
            CompatibleAt(q.travel, Written(s, q.op).events, k) <==>
            !HasConflict(q.travel, s.events, Proposed(s, q.op).AsSlot(), Ignored(q.op))
  {
    var p, ignore := Proposed(s, q.op), Ignored(q.op);
    var k := if q.op.Create? then |s.events| else q.op.event;
    var after := Written(s, q.op).events;
    ScanIsComplete(q.travel, s.events, p, ignore);
    forall i: nat | i < |after| && i != k
      ensures SameDiary(after[i], after[k]) <==> Rival(s.events, p.AsSlot(), ignore, i)
      ensures after[i] == s.events[i]
    {
    }
    forall i: nat | Rival(s.events, p.AsSlot(), ignore, i)
      ensures i < |after| && i != k && SameDiary(after[i], after[k])
    {
    }
  }

  /** On a buffered calendar, a call leaves it buffered exactly when it is not an address edit the scan would refuse. */
  lemma {:induction false} StepKeepsBufferedIff(s: State, q: Request)
    requires BoundedTravel(q.travel) && ValidEvents(s.events) && Buffered(q.travel, s.events)
    ensures Buffered(q.travel, Step(s, q).events) <==> !UncheckedClash(s, q)
  {
    if Precheck(s, q.op).None? && !Refused(s, q) && !q.op.Cancel? {
      WrittenRowCompatible(s, q);
      var k := if q.op.Create? then |s.events| else q.op.event;
      BufferedSplit(q.travel, s.events, Written(s, q.op).events, k);
    }
  }

  /** Rewriting row `k` of a buffered calendar keeps it buffered exactly when the new row fits. */
  lemma BufferedSplit(travel: Travel, before: seq<Event>, after: seq<Event>, k: nat)
    requires Buffered(travel, before) && k < |after|
    requires forall i :: 0 <= i < |after| && i != k ==> i < |before| && after[i] == before[i]
    ensures Buffered(travel, after) <==> CompatibleAt(travel, after, k)
  {
    if Buffered(travel, after) {
      forall i | 0 <= i < |after| && i != k && SameDiary(after[i], after[k])
        ensures Compatible(travel, after[i].AsSlot(), after[k].AsSlot())
      {
        var lo, hi := if i < k then i else k, if i < k then k else i;
        assert SameDiary(after[lo], after[hi]);
      }
    }
  }

  /** The calendar is buffered at every point of the run. */
  ghost predicate BufferedThroughout(travel: Travel, s: State, requests: seq<Request>)
    decreases |requests|
  {
    Buffered(travel, s.events) &&
    (requests == [] || BufferedThroughout(travel, Step(s, requests[0]), requests[1..]))
  }

  /** No call of the run is an address edit that the scan would have refused. */
  ghost predicate NoUncheckedClash(s: State, requests: seq<Request>)
    decreases |requests|
  {
    requests == [] || (!UncheckedClash(s, requests[0]) && NoUncheckedClash(Step(s, requests[0]), requests[1..]))
  }

  /**
    With a fixed travel function bounded by 960 minutes, a run from a buffered calendar keeps every pair of live
    appointments of one appraiser a drive apart, at every point, if and only if none of its address edits clashes.
   */
  lemma {:induction false} RunsStayBufferedIff(travel: Travel, s: State, requests: seq<Request>)
    requires BoundedTravel(travel) && ValidEvents(s.events) && Buffered(travel, s.events)
    requires forall q :: q in requests ==> q.travel == travel
    ensures BufferedThroughout(travel, s, requests) <==> NoUncheckedClash(s, requests)
    decreases |requests|
  {
    if requests != [] {
      var q := requests[0];
      assert q in requests;
      StepKeepsBufferedIff(s, q);
      StepKeepsDurations(s, q);
      if !UncheckedClash(s, q) {
        RunsStayBufferedIff(travel, Step(s, q), requests[1..]);
      }
    }
  }

  /** An empty calendar over fresh records. */
  function EmptyCalendar(records: nat, appraisers: set<nat>): State {
    var fresh_ := EquipmentRecord(NewRequest, [], Option.None, Option.None, Option.None, false);
    State([], seq(records, i => fresh_), appraisers)
  }

  /** Nothing within a site, an hour between sites. */
  function HourApart(): Travel {
    Travel((o, d) => if o == d then Some(0) else Some(3600), 0)
  }

  /** Two appointments at one site, back to back. */
  function BackToBack(): (Request, Request) {
    (Request(HourApart(), Create(0, 7, 0, Option.None, Some("a"))),
     Request(HourApart(), Create(1, 7, HOUR, Option.None, Some("a"))))
  }

  lemma BackToBackAccepted()
    ensures Step(Step(EmptyCalendar(2, {7}), BackToBack().0), BackToBack().1).events ==
            [Event(0, 7, 0, 60, Some("a"), Option.None), Event(1, 7, HOUR, 60, Some("a"), Option.None)]
  {
    AddressesResolve();
    assert Buffer(HourApart(), Some("a"), Some("a")) == 0;
    var s := Step(EmptyCalendar(2, {7}), BackToBack().0);
    assert s.events == [Event(0, 7, 0, 60, Some("a"), Option.None)];
    assert !Refused(s, BackToBack().1);
  }

  /** The clash is reached: two appointments at one site, of which the second then moves an hour's drive away. */
  lemma AddressEditCanBreakBuffer() returns (travel: Travel, requests: seq<Request>)
    ensures BoundedTravel(travel) && forall q :: q in requests ==> q.travel == travel
    ensures !Buffered(travel, Run(EmptyCalendar(2, {7}), requests).events)
    ensures !NoUncheckedClash(EmptyCalendar(2, {7}), requests)
  {
    travel := HourApart();
    var s, first, second := EmptyCalendar(2, {7}), BackToBack().0, BackToBack().1;
    var edit := Request(travel, Update(1, Option.None, Option.None, Option.None, Some("b"), true));
    requests := [first, second, edit];
    BackToBackAccepted();
    var b := Step(Step(s, first), second);
    assert Buffer(travel, Some("a"), Some("b")) == HOUR;
    assert Rival(b.events, Proposed(b, edit.op).AsSlot(), Ignored(edit.op), 0);
    assert !Compatible(travel, Proposed(b, edit.op).AsSlot(), b.events[0].AsSlot());
    assert UncheckedClash(b, edit);
    RunOfThree(s, first, second, edit);
    BufferedFromEmpty(travel, s, first, second);
    StepKeepsBufferedIff(b, edit);
  }

  lemma AddressesResolve()
    ensures ResolveAddress(Some("a"), Option.None) == Some("a")
  {
    assert LeftStrip("a") == "a" && RightStrip("a") == "a";
  }

  lemma BufferedFromEmpty(travel: Travel, s: State, first: Request, second: Request)
    requires BoundedTravel(travel) && first.travel == second.travel == travel && s.events == []
    requires !first.op.Update? && !second.op.Update?
    ensures Buffered(travel, Step(Step(s, first), second).events) && ValidEvents(Step(Step(s, first), second).events)
  {
    StepKeepsBufferedIff(s, first);
    StepKeepsDurations(s, first);
    StepKeepsBufferedIff(Step(s, first), second);
    StepKeepsDurations(Step(s, first), second);
  }

  lemma RunOfThree(s: State, first: Request, second: Request, third: Request)
    ensures Run(s, [first, second, third]) == Step(Step(Step(s, first), second), third)
    ensures UncheckedClash(Step(Step(s, first), second), third) ==> !NoUncheckedClash(s, [first, second, third])
  {
    assert [first, second, third][1..] == [second, third];
    assert [second, third][1..] == [third] && [third][1..] == [];
    assert Run(s, [first, second, third]) == Run(Step(s, first), [second, third]);
    assert Run(Step(s, first), [second, third]) == Run(Step(Step(s, first), second), [third]);
    assert Run(Step(Step(s, first), second), [third]) == Step(Step(Step(s, first), second), third);
    assert NoUncheckedClash(s, [first, second, third]) ==> NoUncheckedClash(Step(s, first), [second, third]);
    assert NoUncheckedClash(Step(s, first), [second, third]) ==>
             NoUncheckedClash(Step(Step(s, first), second), [third]);
  }
}
