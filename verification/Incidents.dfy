/** Incidents as a producer of alerts (src/incidents/incidents.service.ts:27-32, 95-127). */
module Incidents {
  import opened AlertBatch
  import opened AlertInterleaving
  import opened AlertRuns
  import opened AlertThresholds
  import opened Alerts
  import opened Common
  import opened Telemetry
  import opened Text

  datatype IncidentSeverity = CRITICAL | HIGH | MEDIUM | LOW

  datatype Incident = Incident(id: string, title: string, severity: IncidentSeverity, serviceIds: seq<string>)

  /** An incident in the store, where a service id has one spelling. */
  function Recorded(incident: Incident): Incident {
    incident.(serviceIds := LowerAll(incident.serviceIds))
  }

  /** The incident is stored as it was sent, each service id at its place in lower case. */
  predicate IsRecorded(created: Incident, dto: Incident) {
    && created.id == dto.id && created.title == dto.title && created.severity == dto.severity
    && |created.serviceIds| == |dto.serviceIds|
    && forall i | 0 <= i < |dto.serviceIds| :: created.serviceIds[i] == Lower(dto.serviceIds[i])
  }

  function LowerAll(ids: seq<string>): (r: seq<string>)
    ensures |r| == |ids| && forall i | 0 <= i < |ids| :: r[i] == Lower(ids[i])
  {
    seq(|ids|, i requires 0 <= i < |ids| => Lower(ids[i]))
  }

  function ToAlertSeverity(severity: IncidentSeverity): Severity {
    if severity.CRITICAL? || severity.HIGH? then Critical
    else if severity.LOW? then Info
    else Warning
  }

  function IncidentKey(serviceId: string, title: string): Key {
    KeyOf(serviceId, "Incident: " + title)
  }

  function IncidentJob(incident: Incident, serviceId: string): AlertData {
    AlertData(IncidentKey(serviceId, incident.title), Some(ToAlertSeverity(incident.severity)), None,
              Some(incident.id), Some("in-app"), None)
  }

  /** One job for each service id that is not empty. */
  function IncidentJobs(incident: Incident, serviceIds: seq<string>): seq<AlertData> {
    if serviceIds == [] then [] else
    (if serviceIds[0] == "" then [] else [IncidentJob(incident, serviceIds[0])])
      + IncidentJobs(incident, serviceIds[1..])
  }

  lemma {:induction false} IncidentJobsAre(incident: Incident, serviceIds: seq<string>, d: AlertData)
    ensures d in IncidentJobs(incident, serviceIds) <==>
      exists s | s in serviceIds :: s != "" && d == IncidentJob(incident, s)
    decreases |serviceIds|
  {
    if serviceIds != [] {
      IncidentJobsAre(incident, serviceIds[1..], d);
      assert serviceIds == [serviceIds[0]] + serviceIds[1..];
    }
  }

  /**
    The alert for a service of an incident: CRITICAL and HIGH incidents raise critical ones, LOW ones
    informational ones, MEDIUM ones warnings.
   */
  predicate IsIncidentAlert(d: AlertData, incident: Incident, serviceId: string) {
    && d.key == Key(Lower(serviceId), "Incident: " + incident.title) && d.incidentId == Some(incident.id)
    && d.channel == Some("in-app") && d.status.None? && d.triggeredAt.None?
    && d.severity == match incident.severity
                     case MEDIUM => Some(Warning)
                     case LOW => Some(Info)
                     case _ => Some(Critical)
  }

  /** The jobs of an incident are, both ways, the alerts for the ids it names that are not empty. */
  lemma IncidentAsksFor(incident: Incident, d: AlertData)
    ensures d in IncidentJobs(incident, incident.serviceIds) <==>
      exists s | s in incident.serviceIds :: s != "" && IsIncidentAlert(d, incident, s)
  {
    IncidentJobsAre(incident, incident.serviceIds, d);
    forall s ensures IsIncidentAlert(d, incident, s) <==> d == IncidentJob(incident, s) {
    }
  }

  /** Each alert that was added is one for a service that the request names. */
  ghost predicate AddedForServices(before: seq<Alert>, after: seq<Alert>, dto: Incident) {
    && |before| <= |after|
    && forall k | |before| <= k < |after| :: IsForService(after[k], dto)
  }

  ghost predicate IsForService(a: Alert, dto: Incident) {
    exists s, d :: s in dto.serviceIds && s != "" && IsIncidentAlert(d, dto, s) && AskedFor(a, d)
  }

  /** However the jobs interleave, whatever fails and whatever is updated, an incident adds no other alerts. */
  lemma IncidentAddsForServices(alerts: seq<Alert>, dto: Incident, clock: int, steps: seq<Step>)
    ensures AddedForServices(alerts, At(IncidentSystem(alerts, Recorded(dto), clock), steps, |steps|).alerts, dto)
  {
    var created := Recorded(dto);
    var jobs := IncidentJobs(created, created.serviceIds);
    BatchAddsForJobs(alerts, jobs, clock, steps, |steps|);
    var after := At(IncidentSystem(alerts, created, clock), steps, |steps|).alerts;
    forall k | |alerts| <= k < |after| ensures IsForService(after[k], dto) {
      assert IsAskedFor(after[k], jobs);
      var d :| d in jobs && AskedFor(after[k], d);
      IncidentAsksFor(created, d);
      var s :| s in created.serviceIds && s != "" && IsIncidentAlert(d, created, s);
      var i :| 0 <= i < |dto.serviceIds| && created.serviceIds[i] == s;
      LowerIsLower(dto.serviceIds[i]);
      assert dto.serviceIds[i] in dto.serviceIds && IsIncidentAlert(d, dto, dto.serviceIds[i]);
    }
  }

  class IncidentsService {
    const alertsService: AlertsService
    var incidents: seq<Incident>

    constructor (a: AlertsService)
      ensures alertsService == a && incidents == []
    {
      alertsService := a;
      incidents := [];
    }

    /** Stores the incident and alerts every service it names, with jobs that are started together and awaited. */
    method Create(dto: Incident, clock: int, steps: seq<Step>)
      requires Interleaving(IncidentSystem(alertsService.repository.alerts, Recorded(dto), clock), steps)
      requires AllEnded(At(IncidentSystem(alertsService.repository.alerts, Recorded(dto), clock), steps, |steps|))
      modifies this`incidents, alertsService.repository
      ensures alertsService.repository.Valid()
      ensures incidents == old(incidents) + [Recorded(dto)] && IsRecorded(Recorded(dto), dto)
      ensures alertsService.repository.alerts ==
        At(IncidentSystem(old(alertsService.repository.alerts), Recorded(dto), clock), steps, |steps|).alerts
      ensures AddedForServices(old(alertsService.repository.alerts), alertsService.repository.alerts, dto)
      ensures (forall k | 0 <= k < |steps| :: Undisturbing(steps[k])) ==>
        ServicesAlerted(alertsService.repository.alerts, dto, clock)
    {
      var created := Recorded(dto);
      incidents := incidents + [created];
      IncidentAddsForServices(alertsService.repository.alerts, dto, clock, steps);
      if forall k | 0 <= k < |steps| :: Undisturbing(steps[k]) {
        EveryServiceIsAlerted(alertsService.repository.alerts, created, clock, steps);
        ghost var s0 := IncidentSystem(alertsService.repository.alerts, created, clock);
        RecordedIsAlerted(At(s0, steps, |steps|).alerts, dto, clock);
      }
      RunAll(alertsService, IncidentJobs(created, created.serviceIds), clock, steps);
    }
  }

  /** The alert jobs of an incident, about to be started together. */
  function IncidentSystem(alerts: seq<Alert>, incident: Incident, clock: int): System {
    Batch(alerts, IncidentJobs(incident, incident.serviceIds), clock)
  }

  /** Each service the incident names has a recent ACTIVE alert with its title. */
  ghost predicate ServicesAlerted(alerts: seq<Alert>, incident: Incident, at: int) {
    forall s | s in incident.serviceIds && s != "" :: Alerted(alerts, IncidentKey(s, incident.title), at)
  }

  lemma JobsComeFromProducer(incident: Incident)
    ensures forall d | d in IncidentJobs(incident, incident.serviceIds) :: d.FromProducer()
  {
    forall d | d in IncidentJobs(incident, incident.serviceIds) ensures d.FromProducer() {
      IncidentJobsAre(incident, incident.serviceIds, d);
    }
  }

  /** Alerting the services of an incident is alerting the keys of its jobs. */
  lemma ServicesAreKeys(alerts: seq<Alert>, incident: Incident, at: int)
    ensures ServicesAlerted(alerts, incident, at)
      <==> forall d | d in IncidentJobs(incident, incident.serviceIds) :: Alerted(alerts, d.key, at)
  {
    var jobs := IncidentJobs(incident, incident.serviceIds);
    if forall d | d in jobs :: Alerted(alerts, d.key, at) {
      forall s | s in incident.serviceIds && s != "" ensures Alerted(alerts, IncidentKey(s, incident.title), at) {
        IncidentJobsAre(incident, incident.serviceIds, IncidentJob(incident, s));
        assert IncidentJob(incident, s) in jobs;
      }
    }
    if ServicesAlerted(alerts, incident, at) {
      forall d | d in jobs ensures Alerted(alerts, d.key, at) {
        IncidentJobsAre(incident, incident.serviceIds, d);
        var s :| s in incident.serviceIds && s != "" && d == IncidentJob(incident, s);
        assert d.key == IncidentKey(s, incident.title);
      }
    }
  }

  /** The services of an incident as it is stored are alerted if and only if those named in the request are. */
  lemma RecordedIsAlerted(alerts: seq<Alert>, dto: Incident, at: int)
    ensures ServicesAlerted(alerts, Recorded(dto), at) <==> ServicesAlerted(alerts, dto, at)
  {
    forall i | 0 <= i < |dto.serviceIds|
      ensures var s := LowerAll(dto.serviceIds)[i];
        s == Lower(dto.serviceIds[i]) && (s == "" <==> dto.serviceIds[i] == "")
        && IncidentKey(s, dto.title) == IncidentKey(dto.serviceIds[i], dto.title)
    {
      LowerIsLower(dto.serviceIds[i]);
    }
    if ServicesAlerted(alerts, Recorded(dto), at) {
      forall s | s in dto.serviceIds && s != "" ensures Alerted(alerts, IncidentKey(s, dto.title), at) {
        var i :| 0 <= i < |dto.serviceIds| && dto.serviceIds[i] == s;
        assert LowerAll(dto.serviceIds)[i] in Recorded(dto).serviceIds;
      }
    }
    if ServicesAlerted(alerts, dto, at) {
      forall s | s in Recorded(dto).serviceIds && s != "" ensures Alerted(alerts, IncidentKey(s, dto.title), at) {
        var i :| 0 <= i < |dto.serviceIds| && LowerAll(dto.serviceIds)[i] == s;
        assert dto.serviceIds[i] in dto.serviceIds;
      }
    }
  }

  /**
    However the jobs of an incident interleave, without failures or status changes, at the end each
    service it names has an ACTIVE alert triggered no earlier than 15 minutes before they were started.
   */
  lemma EveryServiceIsAlerted(alerts: seq<Alert>, incident: Incident, clock: int, steps: seq<Step>)
    requires Interleaving(IncidentSystem(alerts, incident, clock), steps)
    requires AllEnded(At(IncidentSystem(alerts, incident, clock), steps, |steps|))
    requires forall k | 0 <= k < |steps| :: Undisturbing(steps[k])
    ensures ServicesAlerted(At(IncidentSystem(alerts, incident, clock), steps, |steps|).alerts, incident, clock)
  {
    BatchAlerts(alerts, IncidentJobs(incident, incident.serviceIds), clock, steps);
    ServicesAreKeys(At(IncidentSystem(alerts, incident, clock), steps, |steps|).alerts, incident, clock);
  }

  /** The ids that are not empty name different services, however they are spelled. */
  predicate IdsDistinct(serviceIds: seq<string>) {
    forall i, j | 0 <= i < j < |serviceIds| && Lower(serviceIds[i]) == Lower(serviceIds[j]) :: serviceIds[i] == ""
  }

  /** The id names a service of the list. */
  predicate Names(serviceIds: seq<string>, id: string) {
    exists s | s in serviceIds :: Lower(s) == Lower(id)
  }

  lemma IdsDistinctStep(serviceIds: seq<string>)
    requires serviceIds != []
    ensures IdsDistinct(serviceIds) <==>
      IdsDistinct(serviceIds[1..]) && (serviceIds[0] == "" || !Names(serviceIds[1..], serviceIds[0]))
  {
    var rest := serviceIds[1..];
    if IdsDistinct(serviceIds) {
      forall i, j | 0 <= i < j < |rest| && Lower(rest[i]) == Lower(rest[j]) ensures rest[i] == "" {
        assert Lower(serviceIds[i + 1]) == Lower(serviceIds[j + 1]);
      }
      if s :| s in rest && Lower(s) == Lower(serviceIds[0]) {
        var j :| 0 <= j < |rest| && rest[j] == s;
        assert Lower(serviceIds[0]) == Lower(serviceIds[j + 1]);
      }
    } else {
      var i, j :| 0 <= i < j < |serviceIds| && Lower(serviceIds[i]) == Lower(serviceIds[j]) && serviceIds[i] != "";
      if i == 0 {
        assert rest[j - 1] in rest;
      } else {
        assert Lower(rest[i - 1]) == Lower(rest[j - 1]) && rest[i - 1] != "";
      }
    }
  }

  lemma KeyAmongJobs(incident: Incident, serviceIds: seq<string>, id: string)
    requires id != ""
    ensures (exists d | d in IncidentJobs(incident, serviceIds) :: d.key == IncidentKey(id, incident.title))
      <==> Names(serviceIds, id)
  {
    if d :| d in IncidentJobs(incident, serviceIds) && d.key == IncidentKey(id, incident.title) {
      IncidentJobsAre(incident, serviceIds, d);
    }
    if s :| s in serviceIds && Lower(s) == Lower(id) {
      assert |Lower(s)| == |Lower(id)| && s != "";
      IncidentJobsAre(incident, serviceIds, IncidentJob(incident, s));
      assert IncidentJob(incident, s).key == IncidentKey(id, incident.title);
    }
  }

  lemma {:induction false} IncidentJobsDistinct(incident: Incident, serviceIds: seq<string>)
    ensures DistinctData(IncidentJobs(incident, serviceIds)) <==> IdsDistinct(serviceIds)
    decreases |serviceIds|
  {
    if serviceIds != [] {
      var id, rest := serviceIds[0], serviceIds[1..];
      var first := if id == "" then [] else [IncidentJob(incident, id)];
      IncidentJobsDistinct(incident, rest);
      DistinctConcat(first, IncidentJobs(incident, rest));
      IdsDistinctStep(serviceIds);
      if id != "" {
        KeyAmongJobs(incident, rest, id);
        assert first[0] in first && first[0].key == IncidentKey(id, incident.title);
      }
    }
  }

  lemma RecordedIdsDistinct(dto: Incident)
    ensures IdsDistinct(Recorded(dto).serviceIds) <==> IdsDistinct(dto.serviceIds)
  {
    var ids, recorded := dto.serviceIds, Recorded(dto).serviceIds;
    forall i | 0 <= i < |ids| ensures Lower(recorded[i]) == Lower(ids[i]) && (recorded[i] == "" <==> ids[i] == "") {
      LowerIsLower(ids[i]);
    }
  }

  /**
    The alerts of an incident keep the ACTIVE alerts of each key more than 15 minutes apart, however
    its jobs interleave, if and only if the request names no service twice, in whatever spelling.
   */
  lemma IncidentIsSpacedIff(alerts: seq<Alert>, dto: Incident, clock: int)
    requires Spaced(alerts, clock)
    ensures AlwaysSpaced(IncidentSystem(alerts, Recorded(dto), clock)) <==> IdsDistinct(dto.serviceIds)
  {
    var created := Recorded(dto);
    JobsComeFromProducer(created);
    BatchRacesIff(alerts, IncidentJobs(created, created.serviceIds), clock);
    IncidentJobsDistinct(created, created.serviceIds);
    RecordedIdsDistinct(dto);
  }

  // ----- incidents with the same title -----

  /** The jobs of an incident, run one by one at one reading of the clock. */
  function Alerting(alerts: seq<Alert>, incident: Incident, now: int): seq<Alert> {
    CreateAll(alerts, IncidentJobs(incident, incident.serviceIds), now)
  }

  /** An incident raises no alert if and only if each of its services still has a recent one with its title. */
  lemma IncidentIsSilentIff(alerts: seq<Alert>, incident: Incident, now: int)
    ensures Alerting(alerts, incident, now) == alerts <==> ServicesAlerted(alerts, incident, now)
  {
    JobsComeFromProducer(incident);
    SilentIffCovered(alerts, IncidentJobs(incident, incident.serviceIds), now);
    ServicesAreKeys(alerts, incident, now);
  }

  /** Every service of the second list is in the first. */
  predicate Covers(first: seq<string>, second: seq<string>) {
    forall id | id in second && id != "" :: Names(first, id)
  }

  /**
    Alerts are told apart by service and title only. After an incident that raised alerts for its
    services, a later one with the same title for some of them, whatever its id, description or
    severity, raises none if and only if at most 15 minutes have passed.
   */
  lemma SameTitleIsSilentIff(alerts: seq<Alert>, first: Incident, second: Incident, now: int, later: int, s: string)
    requires now <= later && first.title == second.title && s in second.serviceIds && s != ""
    requires Covers(first.serviceIds, second.serviceIds)
    requires forall id | id in first.serviceIds && id != "" :: !Alerted(alerts, IncidentKey(id, first.title), now)
    ensures var after := Alerting(alerts, first, now);
      Alerting(after, second, later) == after <==> later - now <= 15 * 60_000
  {
    var after := Alerting(alerts, first, now);
    JobsComeFromProducer(first);
    IncidentIsSilentIff(after, second, later);
    forall id | id in second.serviceIds && id != ""
      ensures Alerted(after, IncidentKey(id, second.title), later) <==> later <= now + ALERT_DEDUPE_WINDOW_MS
    {
      var f :| f in first.serviceIds && Lower(f) == Lower(id);
      assert |Lower(f)| == |Lower(id)| && f != "";
      var d := IncidentJob(first, f);
      IncidentJobsAre(first, first.serviceIds, d);
      assert d.key == IncidentKey(id, first.title) == IncidentKey(f, first.title);
      RaisedKeyLasts(alerts, IncidentJobs(first, first.serviceIds), now, later, d);
    }
    assert Alerted(after, IncidentKey(s, second.title), later) <==> later <= now + ALERT_DEDUPE_WINDOW_MS;
  }
}
