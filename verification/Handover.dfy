/** Deactivating a user: their open records and future appointments pass to a colleague, in place. */
module Handover {
  import opened Common
  import opened StatusMachine
  import opened Calendar
  import opened CalendarSafety

  datatype UserStatus = Active | Inactive | Deactivated
  datatype Role = Customer | Sales | SalesManager | Admin | Appraiser
  /** `roles` is the join table, which hand-overs read; `primary` is `role_id`, which the calendar reads. */
  datatype User = User(status: UserStatus, roles: set<Role>, primary: Role)

  const WORK_ROLES: set<Role> := {Sales, SalesManager, Admin, Appraiser}

  datatype Office = Office(users: seq<User>, records: seq<EquipmentRecord>, events: seq<Event>)

  datatype Deactivation = Deactivation(user: nat, reassignTo: Option<nat>, actor: nat, now: Time)

  predicate Closed(status: Status) {
    status == Sold || status == Declined || status == Withdrawn
  }

  /** An open record with a slot that names the user. */
  predicate OpenFor(record: EquipmentRecord, user: nat) {
    (record.salesRep == Some(user) || record.appraiser == Some(user)) && !record.deleted && !Closed(record.status)
  }

  /** A live appointment of the user that has not started. */
  predicate FutureFor(e: Event, user: nat, now: Time) {
    e.appraiser == user && e.start >= now && e.Live()
  }

  function HandRecord(record: EquipmentRecord, leaving: nat, joining: nat): EquipmentRecord {
    if !OpenFor(record, leaving) then record
    else
      record.(salesRep := if record.salesRep == Some(leaving) then Some(joining) else record.salesRep,
              appraiser := if record.appraiser == Some(leaving) then Some(joining) else record.appraiser)
  }

  function HandEvent(e: Event, leaving: nat, joining: nat, now: Time): Event {
    if FutureFor(e, leaving, now) then e.(appraiser := joining) else e
  }

  predicate HasOpenWork(s: Office, user: nat, now: Time) {
    || (exists i | 0 <= i < |s.records| :: OpenFor(s.records[i], user))
    || (exists i | 0 <= i < |s.events| :: FutureFor(s.events[i], user, now))
  }

  function Refusal(s: Office, q: Deactivation): Option<Error> {
    if |s.users| <= q.user then Some(NotFound)
    else if q.user == q.actor then Some(Conflict)
    else if s.users[q.user].status == Deactivated then Some(Conflict)
    else if HasOpenWork(s, q.user, q.now) && q.reassignTo.None? then Some(Conflict)
    else if q.reassignTo.None? then None
    else if |s.users| <= q.reassignTo.value then Some(Unprocessable)
    else if s.users[q.reassignTo.value].status != Active then Some(Unprocessable)
    else if q.reassignTo.value == q.user then Some(Unprocessable)
    else if s.users[q.user].roles * WORK_ROLES * s.users[q.reassignTo.value].roles == {} then Some(Unprocessable)
    else None
  }

  function HandAll(s: Office, q: Deactivation): Office {
    match q.reassignTo
    case None => s
    case Some(joining) =>
      s.(records := seq(|s.records|, i requires 0 <= i < |s.records| => HandRecord(s.records[i], q.user, joining)),
         events := seq(|s.events|, i requires 0 <= i < |s.events| => HandEvent(s.events[i], q.user, joining, q.now)))
  }

  function Deactivate(s: Office, q: Deactivation): Office {
    if Refusal(s, q).Some? then s
    else
      var t := HandAll(s, q);
      t.(users := t.users[q.user := t.users[q.user].(status := Deactivated)])
  }

  // ------------------------------------------------------------------------------------------
  // Conservation
  // ------------------------------------------------------------------------------------------

  function One(b: bool): nat {
    if b then 1 else 0
  }

  /** The open slots (as sales rep or as appraiser) that name the user, among the first `n` records. */
  function OpenSlots(records: seq<EquipmentRecord>, user: nat, n: nat): nat
    requires n <= |records|
  {
    if n == 0 then 0
    else
      var r := records[n - 1];
      OpenSlots(records, user, n - 1)
      + if OpenFor(r, user) then One(r.salesRep == Some(user)) + One(r.appraiser == Some(user)) else 0
  }

  /** The user's live future appointments among the first `n` events. */
  function FutureCount(events: seq<Event>, user: nat, now: Time, n: nat): nat
    requires n <= |events|
  {
    if n == 0 then 0 else FutureCount(events, user, now, n - 1) + One(FutureFor(events[n - 1], user, now))
  }

  /** What `user` holds after a hand-over, given what they and the leaving user held before. */
  function Share(user: nat, leaving: nat, joining: nat, own: nat, handed: nat): nat {
    if user == leaving then 0 else if user == joining then own + handed else own
  }

  lemma {:induction false} SlotsAreConserved(s: Office, q: Deactivation, user: nat, n: nat)
    requires q.reassignTo.Some? && q.reassignTo.value != q.user && n <= |s.records|
    ensures OpenSlots(HandAll(s, q).records, user, n) ==
            Share(user, q.user, q.reassignTo.value, OpenSlots(s.records, user, n), OpenSlots(s.records, q.user, n))
  {
    if n > 0 {
      SlotsAreConserved(s, q, user, n - 1);
      assert HandAll(s, q).records[n - 1] == HandRecord(s.records[n - 1], q.user, q.reassignTo.value);
    }
  }

  lemma {:induction false} EventsAreConserved(s: Office, q: Deactivation, user: nat, n: nat)
    requires q.reassignTo.Some? && q.reassignTo.value != q.user && n <= |s.events|
    ensures FutureCount(HandAll(s, q).events, user, q.now, n) ==
            Share(user, q.user, q.reassignTo.value, FutureCount(s.events, user, q.now, n),
                  FutureCount(s.events, q.user, q.now, n))
  {
    if n > 0 {
      EventsAreConserved(s, q, user, n - 1);
      assert HandAll(s, q).events[n - 1] == HandEvent(s.events[n - 1], q.user, q.reassignTo.value, q.now);
    }
  }

  /** Nothing but the slots that named the leaving user on open work has changed, and no row is lost or added. */
  ghost predicate OnlyOpenSlotsMoved(s: Office, t: Office, q: Deactivation) {
    && |t.records| == |s.records| && |t.events| == |s.events| && |t.users| == |s.users|
    && (forall i :: 0 <= i < |s.records| ==>
          var before, after := s.records[i], t.records[i];
          && after == before.(salesRep := after.salesRep, appraiser := after.appraiser)
          && (after.salesRep != before.salesRep <==> OpenFor(before, q.user) && before.salesRep == Some(q.user))
          && (after.appraiser != before.appraiser <==> OpenFor(before, q.user) && before.appraiser == Some(q.user))
          && (after.salesRep != before.salesRep ==> after.salesRep == q.reassignTo)
          && (after.appraiser != before.appraiser ==> after.appraiser == q.reassignTo))
    && (forall i :: 0 <= i < |s.events| ==>
          var before, after := s.events[i], t.events[i];
          && after == before.(appraiser := after.appraiser)
          && (after.appraiser != before.appraiser <==> FutureFor(before, q.user, q.now))
          && (after.appraiser != before.appraiser ==> Some(after.appraiser) == q.reassignTo))
    && (forall u :: 0 <= u < |s.users| && u != q.user ==> t.users[u] == s.users[u])
  }

  /**
    An accepted deactivation leaves the user without open records and future appointments, moves exactly the slots
    that named them on open work to the reassignee, and conserves the work: the reassignee holds what both held, and
    everyone else what they held.
   */
  lemma {:induction false} HandoverIsComplete(s: Office, q: Deactivation)
    requires Refusal(s, q).None?
    ensures !HasOpenWork(Deactivate(s, q), q.user, q.now) && Deactivate(s, q).users[q.user].status == Deactivated
    ensures OnlyOpenSlotsMoved(s, Deactivate(s, q), q)
    ensures q.reassignTo.Some? ==>
              forall user: nat ::
                && OpenSlots(Deactivate(s, q).records, user, |s.records|) ==
                   Share(user, q.user, q.reassignTo.value, OpenSlots(s.records, user, |s.records|),
                         OpenSlots(s.records, q.user, |s.records|))
                && FutureCount(Deactivate(s, q).events, user, q.now, |s.events|) ==
                   Share(user, q.user, q.reassignTo.value, FutureCount(s.events, user, q.now, |s.events|),
                         FutureCount(s.events, q.user, q.now, |s.events|))
  {
    if q.reassignTo.Some? {
      forall user: nat
        ensures OpenSlots(Deactivate(s, q).records, user, |s.records|) ==
                Share(user, q.user, q.reassignTo.value, OpenSlots(s.records, user, |s.records|),
                      OpenSlots(s.records, q.user, |s.records|))
        ensures FutureCount(Deactivate(s, q).events, user, q.now, |s.events|) ==
                Share(user, q.user, q.reassignTo.value, FutureCount(s.events, user, q.now, |s.events|),
                      FutureCount(s.events, q.user, q.now, |s.events|))
      {
        SlotsAreConserved(s, q, user, |s.records|);
        EventsAreConserved(s, q, user, |s.events|);
      }
    }
  }

  // ------------------------------------------------------------------------------------------
  // In the words of the statuses and roles
  // ------------------------------------------------------------------------------------------

  /** The record is undeleted, neither sold, declined nor withdrawn, and the user is its sales rep or its appraiser. */
  predicate Holds(record: EquipmentRecord, user: nat) {
    && !record.deleted && record.status != Sold && record.status != Declined && record.status != Withdrawn
    && (record.salesRep == Some(user) || record.appraiser == Some(user))
  }

  predicate Awaits(e: Event, user: nat, now: Time) {
    e.appraiser == user && e.cancelledAt.None? && now <= e.start
  }

  predicate WorksWith(a: User, b: User) {
    exists role | role in {Sales, SalesManager, Admin, Appraiser} :: role in a.roles && role in b.roles
  }

  /** The user exists and is not the one who asks. */
  predicate CanLeave(s: Office, q: Deactivation) {
    q.user < |s.users| && q.user != q.actor && s.users[q.user].status != Deactivated
  }

  /** The colleague is another active user who shares a work role. */
  predicate CanTakeOver(s: Office, q: Deactivation, joining: nat) {
    && q.user < |s.users| && joining < |s.users| && joining != q.user && s.users[joining].status == Active
    && WorksWith(s.users[q.user], s.users[joining])
  }

  /** A deactivation is accepted exactly if the user can leave and there is no work to hand over, or one to take it. */
  lemma {:induction false} DeactivationAcceptedIff(s: Office, q: Deactivation)
    ensures Refusal(s, q).None? <==>
              && CanLeave(s, q)
              && (match q.reassignTo
                  case Some(joining) => CanTakeOver(s, q, joining)
                  case None =>
                    && (forall i :: 0 <= i < |s.records| ==> !Holds(s.records[i], q.user))
                    && (forall i :: 0 <= i < |s.events| ==> !Awaits(s.events[i], q.user, q.now)))
    ensures Refusal(s, q) == Some(NotFound) <==> |s.users| <= q.user
    ensures Refusal(s, q) == Some(Unprocessable) <==>
              CanLeave(s, q) && q.reassignTo.Some? && !CanTakeOver(s, q, q.reassignTo.value)
    ensures Refusal(s, q).Some? ==> Refusal(s, q).value in {NotFound, Conflict, Unprocessable}
  {
    WorkIsOpen(s, q);
    if q.user < |s.users| && q.reassignTo.Some? && q.reassignTo.value < |s.users| {
      SharedRoles(s.users[q.user], s.users[q.reassignTo.value]);
    }
  }

  lemma WorkIsOpen(s: Office, q: Deactivation)
    ensures HasOpenWork(s, q.user, q.now) <==>
              || (exists i :: 0 <= i < |s.records| && Holds(s.records[i], q.user))
              || (exists i :: 0 <= i < |s.events| && Awaits(s.events[i], q.user, q.now))
  {
    forall i | 0 <= i < |s.records| ensures OpenFor(s.records[i], q.user) <==> Holds(s.records[i], q.user) {}
    forall i | 0 <= i < |s.events|
      ensures FutureFor(s.events[i], q.user, q.now) <==> Awaits(s.events[i], q.user, q.now)
    {
    }
  }

  lemma SharedRoles(a: User, b: User)
    ensures a.roles * WORK_ROLES * b.roles == {} <==> !WorksWith(a, b)
  {
    if WorksWith(a, b) {
      var role :| role in {Sales, SalesManager, Admin, Appraiser} && role in a.roles && role in b.roles;
      assert role in a.roles * WORK_ROLES * b.roles;
    } else {
      forall role ensures role !in a.roles * WORK_ROLES * b.roles {}
    }
  }

  /** After an accepted deactivation, the user holds no record and awaits no appointment; a colleague has them. */
  lemma {:induction false} NothingIsLeftBehind(s: Office, q: Deactivation)
    requires Refusal(s, q).None?
    ensures var t := Deactivate(s, q);
            && |t.records| == |s.records| && |t.events| == |s.events|
            && (forall i :: 0 <= i < |s.records| ==> !Holds(t.records[i], q.user))
            && (forall i :: 0 <= i < |s.events| ==> !Awaits(t.events[i], q.user, q.now))
            && (forall i :: 0 <= i < |s.records| && Holds(s.records[i], q.user) ==>
                  q.reassignTo.Some? && Holds(t.records[i], q.reassignTo.value))
            && (forall i :: 0 <= i < |s.events| && Awaits(s.events[i], q.user, q.now) ==>
                  q.reassignTo.Some? && Awaits(t.events[i], q.reassignTo.value, q.now))
  {
    DeactivationAcceptedIff(s, q);
    if q.reassignTo.Some? {
      var t := Deactivate(s, q);
      forall i | 0 <= i < |s.records| ensures t.records[i] == HandRecord(s.records[i], q.user, q.reassignTo.value) {}
      forall i | 0 <= i < |s.events|
        ensures t.events[i] == HandEvent(s.events[i], q.user, q.reassignTo.value, q.now)
      {
      }
    }
  }

  // ------------------------------------------------------------------------------------------
  // The calendar after a hand-over
  // ------------------------------------------------------------------------------------------

  /** Some appointment that would be handed over overlaps a live appointment of the reassignee. */
  predicate Collides(events: seq<Event>, leaving: nat, joining: nat, now: Time) {
    exists i, j | 0 <= i < |events| && 0 <= j < |events| ::
      FutureFor(events[i], leaving, now) && events[j].Live() && events[j].appraiser == joining
      && RangesOverlap(events[i].start, events[i].End(), events[j].start, events[j].End())
  }

  /**
    A hand-over runs no conflict scan. From a calendar without double bookings it leads to one without exactly when no
    appointment handed over overlaps one the reassignee already has.
   */
  lemma {:induction false} HandoverDoubleBooksIff(s: Office, q: Deactivation)
    requires Refusal(s, q).None? && q.reassignTo.Some? && NoDoubleBooking(s.events)
    ensures NoDoubleBooking(Deactivate(s, q).events) <==> !Collides(s.events, q.user, q.reassignTo.value, q.now)
  {
    var joining, after := q.reassignTo.value, Deactivate(s, q).events;
    forall i | 0 <= i < |after| ensures after[i] == HandEvent(s.events[i], q.user, joining, q.now) {}
    if Collides(s.events, q.user, joining, q.now) {
      var i, j :| 0 <= i < |s.events| && 0 <= j < |s.events|
                  && FutureFor(s.events[i], q.user, q.now) && s.events[j].Live() && s.events[j].appraiser == joining
                  && RangesOverlap(s.events[i].start, s.events[i].End(), s.events[j].start, s.events[j].End());
      var lo, hi := if i < j then i else j, if i < j then j else i;
      assert lo < hi && SameDiary(after[lo], after[hi]);
      assert RangesOverlap(after[lo].start, after[lo].End(), after[hi].start, after[hi].End());
    } else {
      forall i, j | 0 <= i < j < |after| && SameDiary(after[i], after[j])
        ensures !RangesOverlap(after[i].start, after[i].End(), after[j].start, after[j].End())
      {
        if !SameDiary(s.events[i], s.events[j]) {
          assert FutureFor(s.events[i], q.user, q.now) || FutureFor(s.events[j], q.user, q.now);
        }
      }
    }
  }

  /** Every appointment that would be handed over can be kept with every live appointment of the reassignee. */
  predicate Drivable(travel: Travel, events: seq<Event>, leaving: nat, joining: nat, now: Time) {
    forall i, j | 0 <= i < |events| && 0 <= j < |events| ::
      FutureFor(events[i], leaving, now) && events[j].Live() && events[j].appraiser == joining ==>
        Compatible(travel, events[i].AsSlot(), events[j].AsSlot())
  }

  /** Compatibility takes no account of who keeps the appointments, or of their order. */
  lemma CompatibleFor(travel: Travel, a: Event, b: Event, c: Event, d: Event)
    requires c == a.(appraiser := c.appraiser) && d == b.(appraiser := d.appraiser)
    ensures Compatible(travel, c.AsSlot(), d.AsSlot()) <==> Compatible(travel, a.AsSlot(), b.AsSlot())
    ensures Compatible(travel, a.AsSlot(), b.AsSlot()) <==> Compatible(travel, b.AsSlot(), a.AsSlot())
  {
  }

  /** A hand-over keeps a buffered calendar buffered exactly when the two diaries can be driven as one. */
  lemma {:induction false} HandoverBuffersIff(travel: Travel, s: Office, q: Deactivation)
    requires Refusal(s, q).None? && q.reassignTo.Some? && Buffered(travel, s.events)
    ensures Buffered(travel, Deactivate(s, q).events) <==> Drivable(travel, s.events, q.user, q.reassignTo.value, q.now)
  {
    var joining, after := q.reassignTo.value, Deactivate(s, q).events;
    forall i | 0 <= i < |after| ensures after[i] == HandEvent(s.events[i], q.user, joining, q.now) {}
    if Buffered(travel, after) {
      forall i, j | 0 <= i < |s.events| && 0 <= j < |s.events| && FutureFor(s.events[i], q.user, q.now)
                    && s.events[j].Live() && s.events[j].appraiser == joining
        ensures Compatible(travel, s.events[i].AsSlot(), s.events[j].AsSlot())
      {
        var lo, hi := if i < j then i else j, if i < j then j else i;
        assert lo < hi && SameDiary(after[lo], after[hi]);
        CompatibleFor(travel, s.events[lo], s.events[hi], after[lo], after[hi]);
      }
    }
    if Drivable(travel, s.events, q.user, joining, q.now) {
      forall i, j | 0 <= i < j < |after| && SameDiary(after[i], after[j])
        ensures Compatible(travel, after[i].AsSlot(), after[j].AsSlot())
      {
        CompatibleFor(travel, s.events[i], s.events[j], after[i], after[j]);
        if !SameDiary(s.events[i], s.events[j]) {
          assert FutureFor(s.events[i], q.user, q.now) || FutureFor(s.events[j], q.user, q.now);
        }
      }
    }
  }

  // ------------------------------------------------------------------------------------------
  // Runs of hand-overs and calendar calls
  // ------------------------------------------------------------------------------------------

  datatype DeskCall = Schedule(q: Request) | Leave(d: Deactivation)

  /** Whom the calendar takes for an appraiser: it asks for the primary role, and not for the status. */
  function Appraisers(users: seq<User>): (ids: set<nat>)
    ensures forall u: nat :: u in ids <==> u < |users| && users[u].primary == Appraiser
  {
    set u: nat | u < |users| && users[u].primary == Appraiser
  }

  function CalendarOf(s: Office): State {
    State(s.events, s.records, Appraisers(s.users))
  }

  function DeskStep(s: Office, c: DeskCall): Office {
    match c
    case Schedule(q) =>
      var t := Step(CalendarOf(s), q);
      s.(events := t.events, records := t.records)
    case Leave(d) => Deactivate(s, d)
  }

  function DeskRun(s: Office, calls: seq<DeskCall>): Office {
    if calls == [] then s else DeskStep(DeskRun(s, calls[..|calls| - 1]), calls[|calls| - 1])
  }

  /** The call is an accepted hand-over of an appointment that overlaps one the reassignee has. */
  predicate CollidingHandover(s: Office, c: DeskCall) {
    && c.Leave? && Refusal(s, c.d).None? && c.d.reassignTo.Some?
    && Collides(s.events, c.d.user, c.d.reassignTo.value, c.d.now)
  }

  lemma DeskKeepsDurations(s: Office, c: DeskCall)
    requires ValidEvents(s.events)
    ensures ValidEvents(DeskStep(s, c).events)
  {
    if c.Schedule? {
      StepKeepsDurations(CalendarOf(s), c.q);
    } else if Refusal(s, c.d).None? && c.d.reassignTo.Some? {
      forall i | 0 <= i < |s.events|
        ensures Deactivate(s, c.d).events[i] == HandEvent(s.events[i], c.d.user, c.d.reassignTo.value, c.d.now)
      {
      }
    }
  }

  lemma {:induction false} DeskStepDoubleBooksIff(s: Office, c: DeskCall)
    requires ValidEvents(s.events) && NoDoubleBooking(s.events)
    ensures NoDoubleBooking(DeskStep(s, c).events) <==> !CollidingHandover(s, c)
  {
    if c.Schedule? {
      StepKeepsNoDoubleBooking(CalendarOf(s), c.q);
    } else if Refusal(s, c.d).None? && c.d.reassignTo.Some? {
      HandoverDoubleBooksIff(s, c.d);
    }
  }

  ghost predicate NeverDoubleBooked(s: Office, calls: seq<DeskCall>) {
    NoDoubleBooking(DeskRun(s, calls).events) && (calls == [] || NeverDoubleBooked(s, calls[..|calls| - 1]))
  }

  predicate NoCollision(s: Office, calls: seq<DeskCall>) {
    calls == [] ||
    (NoCollision(s, calls[..|calls| - 1])
     && !CollidingHandover(DeskRun(s, calls[..|calls| - 1]), calls[|calls| - 1]))
  }

  /**
    Over runs that mix hand-overs with calendar calls, no appraiser is double booked at any point if and only if no
    accepted hand-over collides with the reassignee's diary.
   */
  lemma {:induction false} DeskRunsDoubleBookIff(s: Office, calls: seq<DeskCall>)
    requires ValidEvents(s.events) && NoDoubleBooking(s.events)
    ensures ValidEvents(DeskRun(s, calls).events)
    ensures NeverDoubleBooked(s, calls) <==> NoCollision(s, calls)
  {
    if calls != [] {
      var n := |calls| - 1;
      DeskRunsDoubleBookIff(s, calls[..n]);
      DeskKeepsDurations(DeskRun(s, calls[..n]), calls[n]);
      if NeverDoubleBooked(s, calls[..n]) {
        DeskStepDoubleBooksIff(DeskRun(s, calls[..n]), calls[n]);
      }
    }
  }

  // ------------------------------------------------------------------------------------------
  // Who holds the appointments
  // ------------------------------------------------------------------------------------------

  /** Every live appointment is held by someone the calendar would accept as its appraiser. */
  ghost predicate Staffed(s: Office) {
    forall i :: 0 <= i < |s.events| && s.events[i].Live() ==> s.events[i].appraiser in Appraisers(s.users)
  }

  /** The call is an accepted hand-over of an appointment to someone whose primary role is another. */
  predicate UnstaffedHandover(s: Office, c: DeskCall) {
    && c.Leave? && Refusal(s, c.d).None? && c.d.reassignTo.Some?
    && c.d.reassignTo.value !in Appraisers(s.users)
    && exists i | 0 <= i < |s.events| :: FutureFor(s.events[i], c.d.user, c.d.now)
  }

  lemma BookingsAreStaffed(s: Office, q: Request)
    requires Staffed(s)
    ensures Staffed(DeskStep(s, Schedule(q)))
  {
  }

  /**
    The calendar gives appointments to appraisers only. A hand-over asks for any work role the two users share, so a
    call keeps every live appointment with an appraiser if and only if it does not hand one to someone who is none.
   */
  lemma {:induction false} DeskStepStaffsIff(s: Office, c: DeskCall)
    requires Staffed(s)
    ensures Staffed(DeskStep(s, c)) <==> !UnstaffedHandover(s, c)
  {
    if c.Schedule? {
      BookingsAreStaffed(s, c.q);
    } else if Refusal(s, c.d).None? {
      var t := Deactivate(s, c.d);
      forall u: nat ensures u in Appraisers(t.users) <==> u in Appraisers(s.users) {}
      if c.d.reassignTo.Some? {
        forall i | 0 <= i < |s.events|
          ensures t.events[i] == HandEvent(s.events[i], c.d.user, c.d.reassignTo.value, c.d.now)
        {
        }
        if UnstaffedHandover(s, c) {
          var i :| 0 <= i < |s.events| && FutureFor(s.events[i], c.d.user, c.d.now);
          assert t.events[i].Live() && t.events[i].appraiser !in Appraisers(t.users);
        }
      }
    }
  }

  ghost predicate StaffedThroughout(s: Office, calls: seq<DeskCall>) {
    Staffed(DeskRun(s, calls)) && (calls == [] || StaffedThroughout(s, calls[..|calls| - 1]))
  }

  predicate AllStaffed(s: Office, calls: seq<DeskCall>) {
    calls == [] ||
    (AllStaffed(s, calls[..|calls| - 1])
     && !UnstaffedHandover(DeskRun(s, calls[..|calls| - 1]), calls[|calls| - 1]))
  }

  /** The same over runs, at every point. */
  lemma {:induction false} DeskRunsStaffIff(s: Office, calls: seq<DeskCall>)
    requires Staffed(s)
    ensures StaffedThroughout(s, calls) <==> AllStaffed(s, calls)
  {
    if calls != [] {
      var n := |calls| - 1;
      DeskRunsStaffIff(s, calls[..n]);
      if StaffedThroughout(s, calls[..n]) {
        DeskStepStaffsIff(DeskRun(s, calls[..n]), calls[n]);
      }
    }
  }

  // ------------------------------------------------------------------------------------------
  // The failing sides are reached
  // ------------------------------------------------------------------------------------------

  /** An admin, two appraisers and a salesman who also appraises, over two fresh records. */
  function FreshOffice(): Office {
    Office([User(Active, {Admin}, Admin), User(Active, {Appraiser}, Appraiser), User(Active, {Appraiser}, Appraiser),
            User(Active, {Sales, Appraiser}, Sales)],
           EmptyCalendar(2, {}).records, [])
  }

  /** Appointments at one time for the two appraisers. */
  function Bookings(travel: Travel): (DeskCall, DeskCall) {
    (Schedule(Request(travel, Create(0, 1, 0, Option.None, Option.None))),
     Schedule(Request(travel, Create(1, 2, 0, Option.None, Option.None))))
  }

  lemma FirstBooked(travel: Travel)
    ensures var s := DeskStep(FreshOffice(), Bookings(travel).0);
            && s.users == FreshOffice().users && |s.records| == 2 && s.records[1] == FreshOffice().records[1]
            && |s.events| == 1 && s.events[0].Live() && s.events[0].appraiser == 1
            && s.events[0].start == 0 && s.events[0].minutes == 60
  {
    assert !Refused(CalendarOf(FreshOffice()), Bookings(travel).0.q);
  }

  lemma BothBooked(travel: Travel)
    ensures var s := DeskStep(DeskStep(FreshOffice(), Bookings(travel).0), Bookings(travel).1);
            && s.users == FreshOffice().users && |s.events| == 2
            && s.events[0].Live() && s.events[0].appraiser == 1 && s.events[0].start == 0 && s.events[0].minutes == 60
            && s.events[1].Live() && s.events[1].appraiser == 2 && s.events[1].start == 0 && s.events[1].minutes == 60
  {
    FirstBooked(travel);
    var s := DeskStep(FreshOffice(), Bookings(travel).0);
    assert !Refused(CalendarOf(s), Bookings(travel).1.q);
  }

  lemma DeskRunAppend(s: Office, calls: seq<DeskCall>, c: DeskCall)
    ensures DeskRun(s, calls + [c]) == DeskStep(DeskRun(s, calls), c)
    ensures NoCollision(s, calls + [c]) ==> !CollidingHandover(DeskRun(s, calls), c)
    ensures AllStaffed(s, calls + [c]) ==> !UnstaffedHandover(DeskRun(s, calls), c)
  {
    assert (calls + [c])[..|calls|] == calls;
  }

  /** From a fresh office: one appraiser leaves, and the other is double booked. */
  lemma HandoverCanDoubleBook(travel: Travel)
    ensures !NeverDoubleBooked(
              FreshOffice(), [Bookings(travel).0, Bookings(travel).1, Leave(Deactivation(1, Some(2), 0, 0))])
  {
    var a, b, c := Bookings(travel).0, Bookings(travel).1, Leave(Deactivation(1, Some(2), 0, 0));
    BothBooked(travel);
    var s := DeskStep(DeskStep(FreshOffice(), a), b);
    assert Appraiser in s.users[1].roles * WORK_ROLES * s.users[2].roles;
    assert FutureFor(s.events[0], 1, 0) && CollidingHandover(s, c);
    DeskRunAppend(FreshOffice(), [], a);
    DeskRunAppend(FreshOffice(), [a], b);
    DeskRunAppend(FreshOffice(), [a, b], c);
    assert [] + [a] == [a] && [a] + [b] == [a, b] && [a, b] + [c] == [a, b, c];
    DeskRunsDoubleBookIff(FreshOffice(), [a, b, c]);
  }

  /** From a fresh office: an appraiser leaves, and the salesman, whom the calendar would refuse, takes over. */
  lemma HandoverCanLeaveTheAppraisers(travel: Travel)
    ensures !StaffedThroughout(FreshOffice(), [Bookings(travel).0, Leave(Deactivation(1, Some(3), 0, 0))])
  {
    var a, c := Bookings(travel).0, Leave(Deactivation(1, Some(3), 0, 0));
    FirstBooked(travel);
    var s := DeskStep(FreshOffice(), a);
    assert Appraiser in s.users[1].roles * WORK_ROLES * s.users[3].roles;
    assert FutureFor(s.events[0], 1, 0) && UnstaffedHandover(s, c);
    DeskRunAppend(FreshOffice(), [], a);
    DeskRunAppend(FreshOffice(), [a], c);
    assert [] + [a] == [a] && [a] + [c] == [a, c];
    DeskRunsStaffIff(FreshOffice(), [a, c]);
  }

  /** The calendar does not ask for the status: a deactivated appraiser is given a new appointment. */
  lemma DeactivatedCanBeBooked(travel: Travel)
    ensures var s := DeskRun(FreshOffice(), [Leave(Deactivation(1, Option.None, 0, 0)), Bookings(travel).0]);
            |s.users| > 1 && s.users[1].status == Deactivated && HasOpenWork(s, 1, 0)
  {
    var c, a := Leave(Deactivation(1, Option.None, 0, 0)), Bookings(travel).0;
    DeskRunAppend(FreshOffice(), [], c);
    DeskRunAppend(FreshOffice(), [c], a);
    assert [] + [c] == [c] && [c] + [a] == [c, a];
    var left := DeskStep(FreshOffice(), c);
    assert left.users[1].status == Deactivated && left.users[1].primary == Appraiser && left.events == [];
    assert !Refused(CalendarOf(left), a.q);
    var s := DeskStep(left, a);
    assert |s.events| == 1 && FutureFor(s.events[0], 1, 0);
  }

  // ------------------------------------------------------------------------------------------
  // The service
  // ------------------------------------------------------------------------------------------

  /** What a deactivation reports: the ids of the rows it moved. */
  datatype Response = Response(records: seq<nat>, events: seq<nat>)

  class UserAdmin {
    var users: seq<User>
    var records: seq<EquipmentRecord>
    var events: seq<Event>

    function Current(): Office
      reads this
    {
      Office(users, records, events)
    }

    method OpenRecordsAssignedTo(user: nat) returns (ids: seq<nat>)
      ensures forall i: nat :: i in ids <==> i < |records| && OpenFor(records[i], user)
      ensures forall j, k :: 0 <= j < k < |ids| ==> ids[j] != ids[k]
    {
      ids := [];
      for i := 0 to |records|
        invariant forall k: nat :: k in ids <==> k < i && OpenFor(records[k], user)
        invariant forall j, k :: 0 <= j < k < |ids| ==> ids[j] != ids[k]
      {
        if OpenFor(records[i], user) {
          assert forall k :: 0 <= k < |ids| ==> ids[k] in ids;
          ids := ids + [i];
        }
      }
    }

    method FutureEventsForAppraiser(user: nat, now: Time) returns (ids: seq<nat>)
      ensures forall i: nat :: i in ids <==> i < |events| && FutureFor(events[i], user, now)
      ensures forall j, k :: 0 <= j < k < |ids| ==> ids[j] != ids[k]
    {
      ids := [];
      for i := 0 to |events|
        invariant forall k: nat :: k in ids <==> k < i && FutureFor(events[k], user, now)
        invariant forall j, k :: 0 <= j < k < |ids| ==> ids[j] != ids[k]
      {
        if FutureFor(events[i], user, now) {
          assert forall k :: 0 <= k < |ids| ==> ids[k] in ids;
          ids := ids + [i];
        }
      }
    }

    /** Rewrites the slots of the listed records one by one. */
    method ReassignRecords(ids: seq<nat>, leaving: nat, joining: nat) returns (moved: seq<nat>)
      requires forall i: nat :: i in ids <==> i < |records| && OpenFor(records[i], leaving)
      requires forall j, k :: 0 <= j < k < |ids| ==> ids[j] != ids[k]
      modifies this`records
      ensures moved == ids
      ensures records == seq(|old(records)|, i requires 0 <= i < |old(records)| =>
                               HandRecord(old(records)[i], leaving, joining))
    {
      moved := [];
      for k := 0 to |ids|
        invariant moved == ids[..k] && |records| == |old(records)|
        invariant forall i: nat :: i < |records| ==>
                    records[i] ==
                    if i in ids[..k] then HandRecord(old(records)[i], leaving, joining) else old(records)[i]
      {
        var id := ids[k];
        assert id in ids && ids[..k + 1] == ids[..k] + [id];
        assert id !in ids[..k];
        var rec := records[id];
        if rec.salesRep == Some(leaving) {
          rec := rec.(salesRep := Some(joining));
        }
        if rec.appraiser == Some(leaving) {
          rec := rec.(appraiser := Some(joining));
        }
        records := records[id := rec];
        moved := moved + [id];
      }
      assert ids[..|ids|] == ids;
    }

    method ReassignEvents(ids: seq<nat>, leaving: nat, joining: nat, now: Time) returns (moved: seq<nat>)
      requires forall i: nat :: i in ids <==> i < |events| && FutureFor(events[i], leaving, now)
      modifies this`events
      ensures moved == ids
      ensures events == seq(|old(events)|, i requires 0 <= i < |old(events)| =>
                              HandEvent(old(events)[i], leaving, joining, now))
    {
      moved := [];
      for k := 0 to |ids|
        invariant moved == ids[..k] && |events| == |old(events)|
        invariant forall i: nat :: i < |events| ==>
                    events[i] ==
                    if i in ids[..k] then HandEvent(old(events)[i], leaving, joining, now) else old(events)[i]
      {
        var id := ids[k];
        assert id in ids && ids[..k + 1] == ids[..k] + [id];
        events := events[id := events[id].(appraiser := joining)];
        moved := moved + [id];
      }
      assert ids[..|ids|] == ids;
    }

    method DeactivateUser(user: nat, reassignTo: Option<nat>, actor: nat, now: Time) returns (r: Result<Response>)
      modifies this
      ensures var q := Deactivation(user, reassignTo, actor, now);
              Current() == Deactivate(old(Current()), q)
              && (r.Err? <==> Refusal(old(Current()), q).Some?)
              && (r.Err? ==> Refusal(old(Current()), q) == Some(r.error))
              && (r.Ok? ==> && (forall i: nat :: i in r.value.records <==>
                                  i < |old(records)| && OpenFor(old(records)[i], user))
                            && (forall i: nat :: i in r.value.events <==>
                                  i < |old(events)| && FutureFor(old(events)[i], user, now)))
    {
      ghost var s, q := Current(), Deactivation(user, reassignTo, actor, now);
      if |users| <= user {
        return Err(NotFound);
      }
      if user == actor || users[user].status == Deactivated {
        return Err(Conflict);
      }
      var openRecords := OpenRecordsAssignedTo(user);
      var futureEvents := FutureEventsForAppraiser(user, now);
      assert HasOpenWork(s, user, now) <==> openRecords != [] || futureEvents != [] by {
        if openRecords != [] { assert openRecords[0] in openRecords; }
        if futureEvents != [] { assert futureEvents[0] in futureEvents; }
      }
      if (openRecords != [] || futureEvents != []) && reassignTo.None? {
        return Err(Conflict);
      }
      if reassignTo.Some? {
        var joining := reassignTo.value;
        if |users| <= joining || users[joining].status != Active || joining == user
           || users[user].roles * WORK_ROLES * users[joining].roles == {} {
          return Err(Unprocessable);
        }
        var _ := ReassignRecords(openRecords, user, joining);
        var _ := ReassignEvents(futureEvents, user, joining, now);
      }
      assert Office(users, records, events) == HandAll(s, q);
      users := users[user := users[user].(status := Deactivated)];
      r := Ok(Response(openRecords, futureEvents));
    }
  }
}
