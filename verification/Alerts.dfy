/**
  The alert collection and the service that removes duplicates with a lookup followed by an insert
  (src/alerts/alerts.service.ts, src/alerts/repositories/alerts.repository.ts).

  Times are milliseconds. Every operation that reads the clock takes its readings as parameters.
 */
module Alerts {
  import opened AlertThresholds
  import opened Common
  import opened Text

  datatype Status = Active | Acknowledged | Resolved | Suppressed

  /** The statuses an update may set, as its declared type lists them; its validation lets ACTIVE pass as well. */
  type UpdateStatus = s: Status | !s.Active? witness Acknowledged

  /** What a duplicate is recognised by. */
  datatype Key = Key(serviceId: string, title: string)

  /** The store turns service ids into object ids, for which the letter case of their hexadecimal digits is nothing. */
  function KeyOf(serviceId: string, title: string): Key {
    Key(Lower(serviceId), title)
  }

  datatype Alert = Alert(
    id: nat, key: Key, severity: Severity, status: Status, incidentId: Option<string>,
    channel: string, triggeredAt: int, acknowledgedAt: Option<int>)

  datatype AlertData = AlertData(
    key: Key, severity: Option<Severity>, status: Option<Status>, incidentId: Option<string>,
    channel: Option<string>, triggeredAt: Option<int>)
  {
    /** What every producer of the program hands over: the store chooses the status and the time. */
    predicate FromProducer() {
      status.None? && triggeredAt.None?
    }
  }

  datatype UpdateResult = Updated(alert: Alert) | AlertNotFound

  // ----- the store, as values -----

  predicate IsDuplicate(a: Alert, key: Key, since: int) {
    a.key == key && a.status.Active? && a.triggeredAt >= since
  }

  /** The first stored alert that the duplicate filter accepts. */
  function FindDuplicate(alerts: seq<Alert>, key: Key, since: int): (r: Option<Alert>)
    ensures r.Some? ==> r.value in alerts && IsDuplicate(r.value, key, since)
    ensures r.None? ==> forall a | a in alerts :: !IsDuplicate(a, key, since)
  {
    if alerts == [] then None
    else if IsDuplicate(alerts[0], key, since) then Some(alerts[0])
    else FindDuplicate(alerts[1..], key, since)
  }

  /** Where the store holds several, the lookup answers with the one that was stored first. */
  lemma {:induction false} FirstDuplicateIsFound(alerts: seq<Alert>, key: Key, since: int, i: nat)
    requires i < |alerts| && IsDuplicate(alerts[i], key, since)
    requires forall j | 0 <= j < i :: !IsDuplicate(alerts[j], key, since)
    ensures FindDuplicate(alerts, key, since) == Some(alerts[i])
    decreases i
  {
    if i > 0 { FirstDuplicateIsFound(alerts[1..], key, since, i - 1); }
  }

  /** The document that an insert at the given time stores. */
  function NewAlert(data: AlertData, id: nat, now: int): Alert {
    Alert(id, data.key, GetOr(data.severity, Warning), GetOr(data.status, Active), data.incidentId,
          GetOr(data.channel, "in-app"), GetOr(data.triggeredAt, now), None)
  }

  /** The alert holds what was asked for, and the defaults of the store for what was left out. */
  predicate Raises(a: Alert, data: AlertData, now: int) {
    && a.key == data.key && a.incidentId == data.incidentId && a.acknowledgedAt.None?
    && a.severity == (if data.severity.Some? then data.severity.value else Warning)
    && a.status == (if data.status.Some? then data.status.value else Active)
    && a.channel == (if data.channel.Some? then data.channel.value else "in-app")
    && a.triggeredAt == (if data.triggeredAt.Some? then data.triggeredAt.value else now)
  }

  /** `create` as one step: the clock reads lookupAt before the lookup and insertAt at the insert. */
  function Created(alerts: seq<Alert>, data: AlertData, lookupAt: int, insertAt: int): seq<Alert> {
    if FindDuplicate(alerts, data.key, lookupAt - ALERT_DEDUPE_WINDOW_MS).Some? then alerts
    else alerts + [NewAlert(data, |alerts|, insertAt)]
  }

  /** The alert that `create` answers with. */
  function CreatedAnswer(alerts: seq<Alert>, data: AlertData, lookupAt: int, insertAt: int): Alert {
    match FindDuplicate(alerts, data.key, lookupAt - ALERT_DEDUPE_WINDOW_MS)
    case Some(a) => a
    case None => NewAlert(data, |alerts|, insertAt)
  }

  function WithStatus(a: Alert, status: Status, now: int): Alert {
    a.(status := status, acknowledgedAt := if status.Acknowledged? then Some(now) else a.acknowledgedAt)
  }

  function StatusSet(alerts: seq<Alert>, id: nat, status: Status, now: int): seq<Alert> {
    if id < |alerts| then alerts[id := WithStatus(alerts[id], status, now)] else alerts
  }

  function CountActive(alerts: seq<Alert>): nat {
    if alerts == [] then 0
    else CountActive(alerts[..|alerts| - 1]) + if alerts[|alerts| - 1].status.Active? then 1 else 0
  }

  /** Where in the store the ACTIVE alerts are. */
  ghost function ActivePositions(alerts: seq<Alert>): set<int> {
    PositionsOf(alerts, (a: Alert) => a.status.Active?)
  }

  lemma {:induction false} CountActiveIsCardinality(alerts: seq<Alert>)
    ensures CountActive(alerts) == |ActivePositions(alerts)|
    decreases |alerts|
  {
    if alerts != [] {
      CountActiveIsCardinality(alerts[..|alerts| - 1]);
      PositionsStep(alerts, (a: Alert) => a.status.Active?);
    }
  }

  /** Alerts are numbered in the order of their insertion. */
  predicate Numbered(alerts: seq<Alert>) {
    forall i | 0 <= i < |alerts| :: alerts[i].id == i
  }

  // ----- the store and the service -----

  class AlertsRepository {
    var alerts: seq<Alert>

    constructor ()
      ensures alerts == []
    {
      alerts := [];
    }

    ghost predicate Valid()
      reads this
    {
      Numbered(alerts)
    }

    method Create(data: AlertData, now: int) returns (a: Alert)
      requires Valid()
      modifies this
      ensures Valid()
      ensures a == NewAlert(data, |old(alerts)|, now) && alerts == old(alerts) + [a]
      ensures a.id == |old(alerts)| && Raises(a, data, now)
    {
      a := NewAlert(data, |alerts|, now);
      alerts := alerts + [a];
    }

    method FindActiveDuplicate(key: Key, since: int) returns (r: Option<Alert>)
      ensures r == FindDuplicate(alerts, key, since)
    {
      r := FindDuplicate(alerts, key, since);
    }

    /** Sets the status and, when one is given, the time of acknowledgement. */
    method UpdateById(id: nat, status: Status, acknowledgedAt: Option<int>) returns (r: Option<Alert>)
      requires Valid()
      modifies this
      ensures Valid()
      ensures r.None? <==> id >= |old(alerts)|
      ensures r.None? ==> alerts == old(alerts)
      ensures r.Some? ==> alerts == old(alerts)[id := r.value] && r.value == old(alerts)[id].(
        status := status,
        acknowledgedAt := if acknowledgedAt.Some? then acknowledgedAt else old(alerts)[id].acknowledgedAt)
    {
      if id >= |alerts| { return None; }
      var a := alerts[id].(status := status);
      if acknowledgedAt.Some? { a := a.(acknowledgedAt := acknowledgedAt); }
      alerts := alerts[id := a];
      r := Some(a);
    }

    /** How many of the stored alerts are ACTIVE. */
    method CountActiveAlerts() returns (n: nat)
      ensures n == |ActivePositions(alerts)|
    {
      CountActiveIsCardinality(alerts);
      n := CountActive(alerts);
    }
  }

  class AlertsService {
    const repository: AlertsRepository

    constructor (repository: AlertsRepository)
      ensures this.repository == repository
    {
      this.repository := repository;
    }

    /** Looks for an ACTIVE alert of the same service and title in the window, and inserts when there is none. */
    method Create(data: AlertData, lookupAt: int, insertAt: int) returns (alert: Alert)
      requires repository.Valid()
      modifies repository
      ensures repository.Valid()
      ensures repository.alerts == Created(old(repository.alerts), data, lookupAt, insertAt)
      ensures alert == CreatedAnswer(old(repository.alerts), data, lookupAt, insertAt)
      ensures repository.alerts == old(repository.alerts) <==>
        exists a | a in old(repository.alerts) :: IsDuplicate(a, data.key, lookupAt - ALERT_DEDUPE_WINDOW_MS)
      ensures repository.alerts == old(repository.alerts) ==>
        && alert in repository.alerts && alert.key == data.key
        && alert.status.Active? && alert.triggeredAt >= lookupAt - ALERT_DEDUPE_WINDOW_MS
      ensures repository.alerts != old(repository.alerts) ==>
        repository.alerts == old(repository.alerts) + [alert] && Raises(alert, data, insertAt)
    {
      var since := lookupAt - ALERT_DEDUPE_WINDOW_MS;
      var duplicate := repository.FindActiveDuplicate(data.key, since);
      if duplicate.Some? { return duplicate.value; }
      alert := repository.Create(data.(channel := Some(GetOr(data.channel, "in-app"))), insertAt);
    }

    /** `create` behind a catch: when the store fails, nothing is inserted and nothing is answered. */
    method CreateSafely(data: AlertData, lookupAt: int, insertAt: int, storeFails: bool) returns (r: Option<Alert>)
      requires repository.Valid()
      modifies repository
      ensures repository.Valid() && r.None? == storeFails
      ensures r.Some? ==> r.value == CreatedAnswer(old(repository.alerts), data, lookupAt, insertAt)
      ensures repository.alerts ==
        if storeFails then old(repository.alerts) else Created(old(repository.alerts), data, lookupAt, insertAt)
    {
      if storeFails { return None; }
      var a := Create(data, lookupAt, insertAt);
      r := Some(a);
    }

    method Update(id: nat, status: Status, now: int) returns (r: UpdateResult)
      requires repository.Valid()
      modifies repository
      ensures repository.Valid()
      ensures repository.alerts == StatusSet(old(repository.alerts), id, status, now)
      ensures r.AlertNotFound? <==> id >= |old(repository.alerts)|
      ensures r.Updated? ==>
        && r.alert == repository.alerts[id] && r.alert.status == status
        && r.alert.acknowledgedAt ==
             (if status.Acknowledged? then Some(now) else old(repository.alerts)[id].acknowledgedAt)
    {
      var acknowledgedAt: Option<int> := None;
      if status.Acknowledged? { acknowledgedAt := Some(now); }
      var alert := repository.UpdateById(id, status, acknowledgedAt);
      if alert.None? { return AlertNotFound; }
      r := Updated(alert.value);
    }
  }
}
