/** The health poller: each pass probes every service, stores its status, and alerts the admins when one turns red. */
module HealthAlerts {
  import opened Common

  const ALERT_COOLDOWN: Time := 15 * MINUTE

  datatype Service = Database | R2 | Slack | Twilio | Sendgrid | GoogleMaps | Esign | Valuation
  datatype Health = Green | Red | Stubbed | Unknown

  const PROBED_SERVICES: seq<Service> := [Database, R2, Slack, Twilio, Sendgrid, GoogleMaps]
  const STUBBED_SERVICES: seq<Service> := [Esign, Valuation]

  /** A `service_health_state` row. */
  datatype Row = Row(status: Health, lastAlertedAt: Option<Time>)
  type Rows = map<Service, Row>

  /** One probe result, stored and judged at `at`. */
  datatype Probe = Probe(service: Service, status: Health, at: Time)

  function StatusOf(rows: Rows, service: Service): Option<Health> {
    if service in rows then Some(rows[service].status) else None
  }

  function LastAlert(rows: Rows, service: Service): Option<Time> {
    if service in rows then rows[service].lastAlertedAt else None
  }

  predicate CooledDown(last: Option<Time>, now: Time) {
    last.None? || now - last.value >= ALERT_COOLDOWN
  }

  /** The probe sends an alert: the service turned red, and its last alert is long enough ago. */
  predicate Alerts(rows: Rows, p: Probe) {
    p.status == Red && StatusOf(rows, p.service) != Some(Red) && CooledDown(LastAlert(rows, p.service), p.at)
  }

  function After(rows: Rows, p: Probe): Rows {
    rows[p.service := Row(p.status, if Alerts(rows, p) then Some(p.at) else LastAlert(rows, p.service))]
  }

  function Run(rows: Rows, probes: seq<Probe>): Rows {
    if probes == [] then rows else After(Run(rows, probes[..|probes| - 1]), probes[|probes| - 1])
  }

  /** The times of the alerts a run sends for the service. */
  function AlertTimes(rows: Rows, probes: seq<Probe>, service: Service): seq<Time> {
    if probes == [] then []
    else
      var n := |probes| - 1;
      AlertTimes(rows, probes[..n], service)
      + if probes[n].service == service && Alerts(Run(rows, probes[..n]), probes[n]) then [probes[n].at] else []
  }

  // ------------------------------------------------------------------------------------------
  // Spacing
  // ------------------------------------------------------------------------------------------

  ghost predicate Spaced(times: seq<Time>) {
    forall k :: 0 <= k < |times| - 1 ==> times[k + 1] - times[k] >= ALERT_COOLDOWN
  }

  /** The row remembers the last alert of the run. */
  lemma {:induction false} RowRemembersLastAlert(rows: Rows, probes: seq<Probe>, service: Service)
    ensures var times := AlertTimes(rows, probes, service);
            LastAlert(Run(rows, probes), service) ==
            if times == [] then LastAlert(rows, service) else Some(times[|times| - 1])
  {
    if probes != [] {
      RowRemembersLastAlert(rows, probes[..|probes| - 1], service);
    }
  }

  /** Over every run, whatever the clock does, successive alerts for one service are at least 15 minutes apart. */
  lemma {:induction false} AlertsAreSpaced(rows: Rows, probes: seq<Probe>, service: Service)
    ensures Spaced(AlertTimes(rows, probes, service))
    ensures var times := AlertTimes(rows, probes, service);
            times != [] && LastAlert(rows, service).Some? ==>
              times[0] - LastAlert(rows, service).value >= ALERT_COOLDOWN
  {
    if probes != [] {
      var n := |probes| - 1;
      AlertsAreSpaced(rows, probes[..n], service);
      RowRemembersLastAlert(rows, probes[..n], service);
      var before, times := AlertTimes(rows, probes[..n], service), AlertTimes(rows, probes, service);
      forall k | 0 <= k < |times| - 1 ensures times[k + 1] - times[k] >= ALERT_COOLDOWN {
        if k < |before| - 1 {
          assert times[k] == before[k] && times[k + 1] == before[k + 1];
        }
      }
    }
  }

  lemma {:induction false} GapsAddUp(times: seq<Time>, i: nat, j: nat)
    requires Spaced(times) && i <= j < |times|
    ensures times[j] - times[i] >= (j - i) * ALERT_COOLDOWN
  {
    if i < j {
      GapsAddUp(times, i, j - 1);
      assert times[j - 1 + 1] - times[j - 1] >= ALERT_COOLDOWN;
    }
  }

  /** So the alerts for one service within any span of `span` number at most span / 15 min + 1. */
  lemma {:induction false} SpansHoldFewAlerts(
    rows: Rows, probes: seq<Probe>, service: Service, span: Time, i: nat, j: nat)
    requires i <= j < |AlertTimes(rows, probes, service)|
    requires AlertTimes(rows, probes, service)[j] - AlertTimes(rows, probes, service)[i] <= span
    ensures j - i + 1 <= span / ALERT_COOLDOWN + 1
  {
    AlertsAreSpaced(rows, probes, service);
    GapsAddUp(AlertTimes(rows, probes, service), i, j);
  }

  // ------------------------------------------------------------------------------------------
  // Which outages are alerted
  // ------------------------------------------------------------------------------------------

  /** Every probe of the service among these finds it red. */
  predicate AllRed(probes: seq<Probe>, service: Service) {
    forall p :: p in probes && p.service == service ==> p.status == Red
  }

  lemma {:induction false} StaysRed(rows: Rows, probes: seq<Probe>, service: Service)
    requires StatusOf(rows, service) == Some(Red) && AllRed(probes, service)
    ensures StatusOf(Run(rows, probes), service) == Some(Red) && AlertTimes(rows, probes, service) == []
  {
    if probes != [] {
      var n := |probes| - 1;
      assert forall p :: p in probes[..n] ==> p in probes;
      assert probes[n] in probes;
      StaysRed(rows, probes[..n], service);
    }
  }

  /**
    An outage, from the probe that finds the service newly red until it is found otherwise, is alerted exactly once,
    at its first probe, if that comes 15 minutes or more after the service's last alert; and otherwise never, however
    long it lasts.
   */
  lemma {:induction false} OutageIsAlertedIff(rows: Rows, first: Probe, rest: seq<Probe>)
    requires first.status == Red && StatusOf(rows, first.service) != Some(Red) && AllRed(rest, first.service)
    ensures AlertTimes(rows, [first] + rest, first.service) ==
            if CooledDown(LastAlert(rows, first.service), first.at) then [first.at] else []
  {
    assert [first][..0] == [];
    assert Run(rows, [first]) == After(rows, first);
    StaysRed(After(rows, first), rest, first.service);
    AlertTimesAppend(rows, [first], rest, first.service);
  }

  /** An outage can go unalerted: down at 0, up at 5 minutes, and down from 10 minutes on. */
  lemma OutageCanGoUnalerted(service: Service, rest: seq<Probe>)
    requires AllRed(rest, service)
    ensures var probes := [Probe(service, Red, 0), Probe(service, Green, 5 * MINUTE), Probe(service, Red, 10 * MINUTE)];
            AlertTimes(map[], probes + rest, service) == [0]
  {
    var down, up := Probe(service, Red, 0), Probe(service, Green, 5 * MINUTE);
    var again := Probe(service, Red, 10 * MINUTE);
    assert [down][..0] == [] && [down, up][..1] == [down];
    assert Run(map[], [down]) == After(map[], down) && AlertTimes(map[], [down], service) == [0];
    var rows := Run(map[], [down, up]);
    assert rows == After(After(map[], down), up);
    assert AlertTimes(map[], [down, up], service) == AlertTimes(map[], [down], service) + [];
    OutageIsAlertedIff(rows, again, rest);
    AlertTimesAppend(map[], [down, up], [again] + rest, service);
    assert [down, up, again] + rest == [down, up] + ([again] + rest);
  }

  lemma {:induction false} AlertTimesAppend(rows: Rows, a: seq<Probe>, b: seq<Probe>, service: Service)
    ensures Run(rows, a + b) == Run(Run(rows, a), b)
    ensures AlertTimes(rows, a + b, service) == AlertTimes(rows, a, service) + AlertTimes(Run(rows, a), b, service)
  {
    if b == [] {
      assert a + b == a;
    } else {
      var n := |b| - 1;
      assert (a + b)[..|a + b| - 1] == a + b[..n];
      AlertTimesAppend(rows, a, b[..n], service);
    }
  }

  // ------------------------------------------------------------------------------------------
  // The poller
  // ------------------------------------------------------------------------------------------

  /** The probes of a pass over the services, in order, stored at the clock's successive readings. */
  function PassOver(services: seq<Service>, found: Service -> Health, clock: nat -> Time, from: nat): seq<Probe> {
    seq(|services|, i requires 0 <= i < |services| => Probe(services[i], found(services[i]), clock(from + i)))
  }

  /** A whole pass: the probed services, then the stubbed ones. */
  function Pass(found: Service -> Health, clock: nat -> Time): seq<Probe> {
    PassOver(PROBED_SERVICES, found, clock, 0) + PassOver(STUBBED_SERVICES, s => Stubbed, clock, |PROBED_SERVICES|)
  }

  /** The alerts of a run, in the order sent. */
  function Sent(rows: Rows, probes: seq<Probe>): seq<(Service, Time)> {
    if probes == [] then []
    else
      var n := |probes| - 1;
      Sent(rows, probes[..n])
      + if Alerts(Run(rows, probes[..n]), probes[n]) then [(probes[n].service, probes[n].at)] else []
  }

  /** What a pass finds of a service: `stubbed` for the two without a provider. */
  function Finds(found: Service -> Health, service: Service): Health {
    if service == Esign || service == Valuation then Stubbed else found(service)
  }

  /** The pass, probe by probe. */
  lemma PassIsEight(found: Service -> Health, clock: nat -> Time)
    ensures Pass(found, clock) ==
            [Probe(Database, found(Database), clock(0)), Probe(R2, found(R2), clock(1)),
             Probe(Slack, found(Slack), clock(2)), Probe(Twilio, found(Twilio), clock(3)),
             Probe(Sendgrid, found(Sendgrid), clock(4)), Probe(GoogleMaps, found(GoogleMaps), clock(5)),
             Probe(Esign, Stubbed, clock(6)), Probe(Valuation, Stubbed, clock(7))]
  {
  }

  /** The last probe of a service decides its stored status; without one the status stays. */
  lemma {:induction false} StatusIsTheLastProbe(rows: Rows, probes: seq<Probe>, service: Service, k: nat)
    requires k < |probes| && probes[k].service == service
    requires forall j :: k < j < |probes| ==> probes[j].service != service
    ensures StatusOf(Run(rows, probes), service) == Some(probes[k].status)
  {
    if k < |probes| - 1 {
      StatusIsTheLastProbe(rows, probes[..|probes| - 1], service, k);
    }
  }

  /** A pass leaves every service with the status that was found, whatever was stored before. */
  lemma {:induction false} PassCoversEveryService(
    rows: Rows, found: Service -> Health, clock: nat -> Time, service: Service)
    ensures StatusOf(Run(rows, Pass(found, clock)), service) == Some(Finds(found, service))
  {
    PassIsEight(found, clock);
    var k := match service
      case Database => 0
      case R2 => 1
      case Slack => 2
      case Twilio => 3
      case Sendgrid => 4
      case GoogleMaps => 5
      case Esign => 6
      case Valuation => 7;
    StatusIsTheLastProbe(rows, Pass(found, clock), service, k);
  }

  /** A probe alerts exactly if the service is red, was not, and was last alerted 900 seconds ago or more, or never. */
  lemma {:induction false} ProbeAlertsIff(rows: Rows, p: Probe)
    ensures Alerts(rows, p) <==>
              && p.status == Red && (p.service in rows ==> rows[p.service].status != Red)
              && (p.service in rows && rows[p.service].lastAlertedAt.Some? ==>
                    p.at - rows[p.service].lastAlertedAt.value >= 900_000_000)
  {
  }

  class HealthPoller {
    var rows: Rows
    var sent: seq<(Service, Time)>

    constructor ()
      ensures rows == map[] && sent == []
    {
      rows, sent := map[], [];
    }

    method UpsertState(service: Service, status: Health) returns (prior: Option<Health>)
      modifies this`rows
      ensures prior == StatusOf(old(rows), service)
      ensures rows == old(rows)[service := Row(status, LastAlert(old(rows), service))]
    {
      if service in rows {
        prior := Some(rows[service].status);
        rows := rows[service := rows[service].(status := status)];
      } else {
        prior := None;
        rows := rows[service := Row(status, None)];
      }
    }

    method MaybeDispatchAlert(service: Service, prior: Option<Health>, now: Time) returns (dispatched: bool)
      requires service in rows
      modifies this
      ensures dispatched <==> old(rows)[service].status == Red && prior != Some(Red)
                              && CooledDown(old(rows)[service].lastAlertedAt, now)
      ensures rows == if dispatched then old(rows)[service := Row(Red, Some(now))] else old(rows)
      ensures sent == if dispatched then old(sent) + [(service, now)] else old(sent)
    {
      var row := rows[service];
      if row.status != Red || prior == Some(Red) {
        return false;
      }
      if row.lastAlertedAt.Some? && now - row.lastAlertedAt.value < ALERT_COOLDOWN {
        return false;
      }
      sent := sent + [(service, now)];
      rows := rows[service := row.(lastAlertedAt := Some(now))];
      dispatched := true;
    }

    method ProbeAndAlert(service: Service, status: Health, now: Time)
      modifies this
      ensures var p := Probe(service, status, now);
              && rows == After(old(rows), p)
              && sent == old(sent) + if Alerts(old(rows), p) then [(service, now)] else []
    {
      var prior := UpsertState(service, status);
      var dispatched := MaybeDispatchAlert(service, prior, now);
    }

    /** A stubbed service has its status stored and is never alerted. */
    method StoreStubbed(service: Service, now: Time)
      modifies this`rows
      ensures rows == After(old(rows), Probe(service, Stubbed, now)) && !Alerts(old(rows), Probe(service, Stubbed, now))
    {
      var prior := UpsertState(service, Stubbed);
    }

    method RunAll(found: Service -> Health, clock: nat -> Time)
      modifies this
      ensures rows == Run(old(rows), Pass(found, clock))
      ensures sent == old(sent) + Sent(old(rows), Pass(found, clock))
    {
      ghost var pass := Pass(found, clock);
      for i := 0 to |PROBED_SERVICES|
        invariant rows == Run(old(rows), pass[..i])
        invariant sent == old(sent) + Sent(old(rows), pass[..i])
      {
        var service := PROBED_SERVICES[i];
        assert pass[..i + 1][..i] == pass[..i] && pass[i] == Probe(service, found(service), clock(i));
        ProbeAndAlert(service, found(service), clock(i));
      }
      for i := 0 to |STUBBED_SERVICES|
        invariant rows == Run(old(rows), pass[..|PROBED_SERVICES| + i])
        invariant sent == old(sent) + Sent(old(rows), pass[..|PROBED_SERVICES| + i])
      {
        var k := |PROBED_SERVICES| + i;
        assert pass[..k + 1][..k] == pass[..k] && pass[k] == Probe(STUBBED_SERVICES[i], Stubbed, clock(k));
        StoreStubbed(STUBBED_SERVICES[i], clock(k));
      }
      assert pass[..|PROBED_SERVICES| + |STUBBED_SERVICES|] == pass;
    }
  }
}
