/** The equipment-record status registry and the one entry point that writes the status timeline. */
module StatusMachine {
  import opened Common

  datatype Status =
    | NewRequest
    | AppraiserAssigned
    | AppraisalScheduled
    | AppraisalComplete
    | OfferReady
    | ApprovedPendingEsign
    | EsignedPendingPublish
    | Listed
    | Sold
    | Declined
    | Withdrawn

  const FORBIDDEN_TRANSITIONS: set<(Status, Status)> := {
    (Sold, NewRequest),
    (Declined, NewRequest),
    (Sold, Listed),
    (Sold, AppraisalScheduled)
  }

  predicate IsForbiddenTransition(from: Status, to: Status) {
    (from, to) in FORBIDDEN_TRANSITIONS
  }

  datatype StatusEvent = StatusEvent(from: Status, to: Status)

  /** An equipment record; `log` is its append-only `status_events` timeline. */
  datatype EquipmentRecord = EquipmentRecord(
    status: Status,
    log: seq<StatusEvent>,
    location: Option<string>,
    salesRep: Option<nat>,
    appraiser: Option<nat>,
    deleted: bool)

  /** `record_transition`: refuse a same-state or denylisted edge, else log it and move. */
  function Transition(record: EquipmentRecord, to: Status): Result<EquipmentRecord> {
    if record.status == to then
      Err(Conflict)
    else if IsForbiddenTransition(record.status, to) then
      Err(Conflict)
    else
      Ok(record.(status := to, log := record.log + [StatusEvent(record.status, to)]))
  }

  /** Cancelling an appointment writes the status field directly and logs nothing. */
  function RevertOnCancel(record: EquipmentRecord): EquipmentRecord {
    if record.status == AppraisalScheduled then record.(status := NewRequest) else record
  }

  /** The edge a cancellation leaves out of the timeline. */
  predicate CancelGap(from: Status, to: Status) {
    from == AppraisalScheduled && to == NewRequest
  }

  /** `to` is where `from` was left, or a cancellation moved it there. */
  predicate Continues(from: Status, to: Status) {
    from == to || CancelGap(from, to)
  }

  /** The status the timeline accounts for, starting from `initial`. */
  function LastTarget(initial: Status, log: seq<StatusEvent>): Status {
    if log == [] then initial else log[|log| - 1].to
  }

  /** Edge `k` is a real, permitted move, and starts where the one before it ended (up to a cancellation). */
  predicate IsMove(initial: Status, log: seq<StatusEvent>, k: nat)
    requires k < |log|
  {
    && log[k].from != log[k].to
    && !IsForbiddenTransition(log[k].from, log[k].to)
    && Continues(LastTarget(initial, log[..k]), log[k].from)
  }

  ghost predicate IsPath(initial: Status, log: seq<StatusEvent>) {
    forall k :: 0 <= k < |log| ==> IsMove(initial, log, k)
  }

  /** The record's timeline is a path that accounts for its status. */
  ghost predicate Accounted(record: EquipmentRecord) {
    && IsPath(NewRequest, record.log)
    && Continues(LastTarget(NewRequest, record.log), record.status)
  }
}
