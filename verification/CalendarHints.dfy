/**
  Following the reschedule hint: a caller refused at one start proposes the suggested start instead, again and
  again, against a calendar nobody else edits.
 */
module CalendarHints {
  import opened Common
  import opened Calendar
  import opened CalendarSafety

  /** The same appointment at another start. */
  function At(p: Event, start: Time): Event {
    p.(start := start)
  }

  /** A conflict the scan could report for the appointment at `start`, suggesting `hint`. */
  ghost predicate Hints(travel: Travel, events: seq<Event>, p: Event, ignore: Option<nat>, start: Time, hint: Time) {
    exists c :: IsAnswer(travel, events, At(p, start).AsSlot(), ignore, c) && c.nextAvailableAt == Some(hint)
  }

  /** Each start of the chain after the first is what the scan suggested for the one before. */
  ghost predicate HintChain(travel: Travel, events: seq<Event>, p: Event, ignore: Option<nat>, starts: seq<Time>) {
    forall k :: 0 <= k < |starts| - 1 ==> Hints(travel, events, p, ignore, starts[k], starts[k + 1])
  }

  /**
    How many more hints one rival can still give to a proposal at or after `start`: two while the proposal starts
    before the rival ends, one while it starts inside the drive from the rival, none later.
   */
  function HintsLeft(travel: Travel, events: seq<Event>, p: Event, ignore: Option<nat>, start: Time, i: nat): nat
    requires i < |events|
  {
    if !Rival(events, p.AsSlot(), ignore, i) then 0
    else if start < events[i].End() then 2
    else if start < events[i].End() + Buffer(travel, events[i].address, p.address) then 1
    else 0
  }

  function TotalHintsLeft(travel: Travel, events: seq<Event>, p: Event, ignore: Option<nat>, start: Time, n: nat): nat
    requires n <= |events|
  {
    if n == 0 then 0
    else TotalHintsLeft(travel, events, p, ignore, start, n - 1) + HintsLeft(travel, events, p, ignore, start, n - 1)
  }

  /** The number of live appointments of the appraiser, other than the one being edited, among the first `n` rows. */
  function RivalCount(events: seq<Event>, p: Event, ignore: Option<nat>, n: nat): nat
    requires n <= |events|
  {
    if n == 0 then 0
    else RivalCount(events, p, ignore, n - 1) + if Rival(events, p.AsSlot(), ignore, n - 1) then 1 else 0
  }

  lemma {:induction false} AtMostTwoEach(
    travel: Travel, events: seq<Event>, p: Event, ignore: Option<nat>, start: Time, n: nat)
    requires n <= |events|
    ensures TotalHintsLeft(travel, events, p, ignore, start, n) <= 2 * RivalCount(events, p, ignore, n)
  {
    if n > 0 {
      AtMostTwoEach(travel, events, p, ignore, start, n - 1);
    }
  }

  /** Moving later never gives a rival more hints, and gives rival `i` fewer if it had one to give. */
  lemma {:induction false} LaterLeavesFewer(
    travel: Travel, events: seq<Event>, p: Event, ignore: Option<nat>, start: Time, later: Time, i: nat, n: nat)
    requires start <= later && i < |events| && n <= |events|
    requires HintsLeft(travel, events, p, ignore, later, i) < HintsLeft(travel, events, p, ignore, start, i)
    ensures var before := TotalHintsLeft(travel, events, p, ignore, start, n);
            var after := TotalHintsLeft(travel, events, p, ignore, later, n);
            after <= before && (i < n ==> after < before)
  {
    if n > 0 {
      LaterLeavesFewer(travel, events, p, ignore, start, later, i, n - 1);
    }
  }

  /** Up to the hint, the appointment cannot be kept together with the one the hint is from. */
  lemma RefusedUntilHint(travel: Travel, p: Event, e: Event, id: nat, start: Time, hint: Time, t: Time)
    requires ValidMinutes(e.minutes) && ValidMinutes(p.minutes) && start <= t < hint
    requires ConflictWith(travel, At(p, start).AsSlot(), e, id) == Some(CalendarConflict(Some(hint), id))
    ensures !Compatible(travel, At(p, t).AsSlot(), e.AsSlot())
  {
    var first, slot := At(p, start).AsSlot(), At(p, t).AsSlot();
    assert first.start < e.End() ==> hint == e.End();
    assert !FollowsOn(travel, slot, e.AsSlot());
    assert !FollowsOn(travel, e.AsSlot(), slot);
  }

  /** Once the hint is taken, that appointment has one hint fewer to give. */
  lemma HintIsUsedUp(
    travel: Travel, events: seq<Event>, p: Event, ignore: Option<nat>, start: Time, hint: Time, i: nat)
    requires ValidEvents(events) && ValidMinutes(p.minutes) && Rival(events, p.AsSlot(), ignore, i)
    requires ConflictWith(travel, At(p, start).AsSlot(), events[i], i) == Some(CalendarConflict(Some(hint), i))
    ensures HintsLeft(travel, events, p, ignore, hint, i) < HintsLeft(travel, events, p, ignore, start, i)
  {
  }

  /** A hint lies strictly after the refused start, uses up one hint of one rival, and skips only refused starts. */
  lemma {:induction false} HintMakesProgress(
    travel: Travel, events: seq<Event>, p: Event, ignore: Option<nat>, start: Time, hint: Time)
    requires ValidEvents(events) && ValidMinutes(p.minutes)
    requires Hints(travel, events, p, ignore, start, hint)
    ensures start < hint
    ensures TotalHintsLeft(travel, events, p, ignore, hint, |events|)
            < TotalHintsLeft(travel, events, p, ignore, start, |events|)
    ensures forall t :: start <= t < hint ==> HasRivalAnywhere(travel, events, At(p, t).AsSlot(), ignore)
  {
    var c :| IsAnswer(travel, events, At(p, start).AsSlot(), ignore, c) && c.nextAvailableAt == Some(hint);
    var i := c.conflictingEventId;
    assert Rival(events, p.AsSlot(), ignore, i) && c == CalendarConflict(Some(hint), i);
    HintIsUsedUp(travel, events, p, ignore, start, hint, i);
    LaterLeavesFewer(travel, events, p, ignore, start, hint, i, |events|);
    forall t | start <= t < hint
      ensures HasRivalAnywhere(travel, events, At(p, t).AsSlot(), ignore)
    {
      RefusedUntilHint(travel, p, events[i], i, start, hint, t);
      assert Rival(events, At(p, t).AsSlot(), ignore, i);
    }
  }

  lemma {:induction false} ChainMakesProgress(
    travel: Travel, events: seq<Event>, p: Event, ignore: Option<nat>, starts: seq<Time>)
    requires ValidEvents(events) && ValidMinutes(p.minutes)
    requires |starts| > 0 && HintChain(travel, events, p, ignore, starts)
    ensures |starts| - 1 <= TotalHintsLeft(travel, events, p, ignore, starts[0], |events|)
                            - TotalHintsLeft(travel, events, p, ignore, starts[|starts| - 1], |events|)
    ensures forall t :: starts[0] <= t < starts[|starts| - 1] ==>
              HasRivalAnywhere(travel, events, At(p, t).AsSlot(), ignore)
  {
    if |starts| > 1 {
      var rest := starts[..|starts| - 1];
      assert HintChain(travel, events, p, ignore, rest);
      ChainMakesProgress(travel, events, p, ignore, rest);
      HintMakesProgress(travel, events, p, ignore, starts[|starts| - 2], starts[|starts| - 1]);
    }
  }

  /**
    Following hints stops: against n live appointments of the appraiser at most 2n hints are ever given, and with
    buffers of at most 960 minutes every start passed over on the way would have been refused. So if the chain ends
    at a free start, that start is the earliest free one.
   */
  lemma {:induction false} HintChainsAreShortAndSkipNothing(
    travel: Travel, events: seq<Event>, p: Event, ignore: Option<nat>, starts: seq<Time>)
    requires ValidEvents(events) && ValidMinutes(p.minutes)
    requires |starts| > 0 && HintChain(travel, events, p, ignore, starts)
    ensures |starts| - 1 <= 2 * RivalCount(events, p, ignore, |events|)
    ensures BoundedTravel(travel) ==> forall t :: starts[0] <= t < starts[|starts| - 1] ==>
              HasConflict(travel, events, At(p, t).AsSlot(), ignore)
  {
    ChainMakesProgress(travel, events, p, ignore, starts);
    AtMostTwoEach(travel, events, p, ignore, starts[0], |events|);
    if BoundedTravel(travel) {
      forall t | starts[0] <= t < starts[|starts| - 1]
        ensures HasConflict(travel, events, At(p, t).AsSlot(), ignore)
      {
        ScanIsComplete(travel, events, At(p, t), ignore);
      }
    }
  }

  /** The bound is met: one appointment can give an overlap hint and then a drive-time hint. */
  lemma TwoHintsFromOneRival() returns (travel: Travel, events: seq<Event>, p: Event, starts: seq<Time>)
    ensures ValidEvents(events) && ValidMinutes(p.minutes)
    ensures |starts| == 3 && HintChain(travel, events, p, Option.None, starts)
    ensures 2 * RivalCount(events, p, Option.None, |events|) == 2
    ensures !HasConflict(travel, events, At(p, starts[2]).AsSlot(), Option.None)
  {
    travel := Travel((o, d) => Some(1800), 60);
    var e := Event(0, 7, 0, 60, Some("a"), Option.None);
    events := [e];
    p := Event(1, 7, 0, 60, Some("b"), Option.None);
    starts := [0, HOUR, HOUR + 30 * MINUTE];
    assert IsAnswer(travel, events, At(p, 0).AsSlot(), Option.None, CalendarConflict(Some(starts[1]), 0));
    assert IsAnswer(travel, events, At(p, HOUR).AsSlot(), Option.None, CalendarConflict(Some(starts[2]), 0));
    assert RivalCount(events, p, Option.None, 0) == 0;
  }
}
