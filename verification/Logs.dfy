/**
  The log collection, the counting of error logs, and the service that stores one log and may raise an
  alert (src/logs/logs.service.ts, src/logs/repositories/logs.repository.ts,
  src/telemetry/telemetry.service.ts:71-79).

  A service id is 24 hexadecimal digits, in either letter case. The stores compare ids by value; the
  error counts of a batch are kept under ids as they are spelled.
 */
module Logs {
  import opened AlertThresholds
  import opened Alerts
  import opened Common
  import opened Sanitizer
  import opened Text
  import opened TokenScanner

  datatype LogLevel = TRACE | DEBUG | INFO | WARN | ERROR | FATAL

  datatype LogFields = LogFields(serviceId: string, level: LogLevel, timestamp: Option<int>)

  type Log = Payload<LogFields>

  /** A log in the store, where its service id has one spelling. */
  datatype StoredLog = StoredLog(log: Log, timestamp: int)

  function Canonical(log: Log): Log {
    log.(rest := log.rest.(serviceId := Lower(log.rest.serviceId)))
  }

  predicate IsError(log: Log) {
    log.rest.level.ERROR? || log.rest.level.FATAL?
  }

  // ----- counting error logs -----

  /** The stored ERROR and FATAL logs of a service since a time. */
  function CountStored(stored: seq<StoredLog>, serviceId: string, since: int): nat {
    if stored == [] then 0 else
    CountStored(stored[..|stored| - 1], serviceId, since)
      + if IsErrorSince(stored[|stored| - 1], serviceId, since) then 1 else 0
  }

  predicate IsErrorSince(l: StoredLog, serviceId: string, since: int) {
    l.log.rest.serviceId == Lower(serviceId) && IsError(l.log) && l.timestamp >= since
  }

  /** Where in the store the ERROR and FATAL logs of a service since a time are. */
  ghost function ErrorPositions(stored: seq<StoredLog>, serviceId: string, since: int): set<int> {
    PositionsOf(stored, (l: StoredLog) =>
      l.log.rest.level in {ERROR, FATAL} && l.log.rest.serviceId == Lower(serviceId) && l.timestamp >= since)
  }

  lemma {:induction false} CountStoredIsCardinality(stored: seq<StoredLog>, serviceId: string, since: int)
    ensures CountStored(stored, serviceId, since) == |ErrorPositions(stored, serviceId, since)|
    decreases |stored|
  {
    if stored != [] {
      CountStoredIsCardinality(stored[..|stored| - 1], serviceId, since);
      PositionsStep(stored, (l: StoredLog) =>
        l.log.rest.level in {ERROR, FATAL} && l.log.rest.serviceId == Lower(serviceId) && l.timestamp >= since);
    }
  }

  /** The log of a batch, as it is stored. */
  function StampedLog(l: Log, now: int): StoredLog {
    StoredLog(Canonical(l), GetOr(l.rest.timestamp, now))
  }

  function Stamped(logs: seq<Log>, now: int): (r: seq<StoredLog>)
    ensures |r| == |logs|
  {
    seq(|logs|, i requires 0 <= i < |logs| => StampedLog(logs[i], now))
  }

  /** The ERROR and FATAL logs in a batch under one spelling of a service id. */
  function CountErrors(logs: seq<Log>, serviceId: string): nat {
    if logs == [] then 0 else
    CountErrors(logs[..|logs| - 1], serviceId)
      + var last := logs[|logs| - 1];
        if last.rest.serviceId == serviceId && IsError(last) then 1 else 0
  }

  /** Where in the batch the ERROR and FATAL logs under one spelling of a service id are. */
  ghost function ErrorsUnder(logs: seq<Log>, serviceId: string): set<int> {
    PositionsOf(logs, (l: Log) => l.rest.level in {ERROR, FATAL} && l.rest.serviceId == serviceId)
  }

  lemma {:induction false} CountErrorsIsCardinality(logs: seq<Log>, serviceId: string)
    ensures CountErrors(logs, serviceId) == |ErrorsUnder(logs, serviceId)|
    decreases |logs|
  {
    if logs != [] {
      CountErrorsIsCardinality(logs[..|logs| - 1], serviceId);
      PositionsStep(logs, (l: Log) => l.rest.level in {ERROR, FATAL} && l.rest.serviceId == serviceId);
    }
  }

  function CountAllErrors(logs: seq<Log>): nat {
    if logs == [] then 0
    else CountAllErrors(logs[..|logs| - 1]) + if IsError(logs[|logs| - 1]) then 1 else 0
  }

  /** The spellings of service ids with an error log in the batch, in the order in which they are first seen. */
  function ErrorServices(logs: seq<Log>): seq<string> {
    if logs == [] then [] else
    var before := ErrorServices(logs[..|logs| - 1]);
    var last := logs[|logs| - 1];
    if IsError(last) && last.rest.serviceId !in before then before + [last.rest.serviceId] else before
  }

  /** Each spelling is listed once, and exactly when the batch has an error log under it. */
  lemma {:induction false} ErrorServicesAreThoseCounted(logs: seq<Log>)
    ensures Distinct(ErrorServices(logs))
    ensures forall s :: s in ErrorServices(logs) <==> CountErrors(logs, s) > 0
    decreases |logs|
  {
    if logs != [] {
      ErrorServicesAreThoseCounted(logs[..|logs| - 1]);
    }
  }

  function SumOfCounts(services: seq<string>, logs: seq<Log>): nat {
    if services == [] then 0 else CountErrors(logs, services[0]) + SumOfCounts(services[1..], logs)
  }

  lemma {:induction false} SumOfCountsAppend(a: seq<string>, b: seq<string>, logs: seq<Log>)
    ensures SumOfCounts(a + b, logs) == SumOfCounts(a, logs) + SumOfCounts(b, logs)
    decreases |a|
  {
    if a == [] {
      assert a + b == b;
    } else {
      assert (a + b)[1..] == a[1..] + b;
      SumOfCountsAppend(a[1..], b, logs);
    }
  }

  /** One more log raises the sum by one when it is an error of a listed service. */
  lemma {:induction false} SumOfCountsStep(services: seq<string>, logs: seq<Log>)
    requires logs != [] && Distinct(services)
    ensures var last := logs[|logs| - 1];
      SumOfCounts(services, logs) == SumOfCounts(services, logs[..|logs| - 1])
        + if IsError(last) && last.rest.serviceId in services then 1 else 0
    decreases |services|
  {
    if services != [] {
      assert services == [services[0]] + services[1..];
      SumOfCountsStep(services[1..], logs);
    }
  }

  /** The counts per spelling add up to all error logs of the batch. */
  lemma {:induction false} CountsSumToAllErrors(logs: seq<Log>)
    ensures SumOfCounts(ErrorServices(logs), logs) == CountAllErrors(logs)
    decreases |logs|
  {
    if logs != [] {
      var prefix := logs[..|logs| - 1];
      var s := logs[|logs| - 1].rest.serviceId;
      CountsSumToAllErrors(prefix);
      ErrorServicesAreThoseCounted(prefix);
      ErrorServicesAreThoseCounted(logs);
      SumOfCountsStep(ErrorServices(prefix), logs);
      if ErrorServices(logs) != ErrorServices(prefix) {
        SumOfCountsAppend(ErrorServices(prefix), [s], logs);
        assert SumOfCounts([s], logs) == CountErrors(logs, s) == 1;
      }
    }
  }

  // ----- spellings of one service -----

  /** The ERROR and FATAL logs of a service in a batch, under whatever spelling. */
  function CountOfService(logs: seq<Log>, id: string): nat {
    if logs == [] then 0 else
    CountOfService(logs[..|logs| - 1], id)
      + var last := logs[|logs| - 1];
        if Lower(last.rest.serviceId) == id && IsError(last) then 1 else 0
  }

  /** What the counts under the listed spellings of a service add up to. */
  function SumOfSpellings(services: seq<string>, id: string, logs: seq<Log>): nat {
    if services == [] then 0 else
    (if Lower(services[0]) == id then CountErrors(logs, services[0]) else 0) + SumOfSpellings(services[1..], id, logs)
  }

  lemma {:induction false} SumOfSpellingsAppend(services: seq<string>, s: string, id: string, logs: seq<Log>)
    ensures SumOfSpellings(services + [s], id, logs)
      == SumOfSpellings(services, id, logs) + if Lower(s) == id then CountErrors(logs, s) else 0
    decreases |services|
  {
    if services != [] {
      assert (services + [s])[1..] == services[1..] + [s];
      SumOfSpellingsAppend(services[1..], s, id, logs);
    }
  }

  lemma {:induction false} SumOfSpellingsStep(services: seq<string>, id: string, logs: seq<Log>)
    requires logs != [] && Distinct(services)
    ensures var last := logs[|logs| - 1];
      SumOfSpellings(services, id, logs) == SumOfSpellings(services, id, logs[..|logs| - 1])
        + if IsError(last) && last.rest.serviceId in services && Lower(last.rest.serviceId) == id then 1 else 0
    decreases |services|
  {
    if services != [] {
      assert services == [services[0]] + services[1..];
      SumOfSpellingsStep(services[1..], id, logs);
    }
  }

  /** The error logs of a service are split over its spellings, each counted apart; together they are all there. */
  lemma {:induction false} SpellingsSumToService(logs: seq<Log>, id: string)
    ensures SumOfSpellings(ErrorServices(logs), id, logs) == CountOfService(logs, id)
    decreases |logs|
  {
    if logs != [] {
      var prefix := logs[..|logs| - 1];
      var s := logs[|logs| - 1].rest.serviceId;
      SpellingsSumToService(prefix, id);
      ErrorServicesAreThoseCounted(prefix);
      ErrorServicesAreThoseCounted(logs);
      SumOfSpellingsStep(ErrorServices(prefix), id, logs);
      if ErrorServices(logs) != ErrorServices(prefix) {
        SumOfSpellingsAppend(ErrorServices(prefix), s, id, logs);
      }
    }
  }

  /** No spelling counts more than its service, and counts all of it exactly if it is used throughout. */
  lemma {:induction false} SpellingWithinService(logs: seq<Log>, s: string)
    ensures CountErrors(logs, s) <= CountOfService(logs, Lower(s))
    ensures (forall l | l in logs && IsError(l) && Lower(l.rest.serviceId) == Lower(s) :: l.rest.serviceId == s) <==>
      CountErrors(logs, s) == CountOfService(logs, Lower(s))
    decreases |logs|
  {
    if logs != [] {
      var n := |logs| - 1;
      assert logs[n] in logs && forall l | l in logs[..n] :: l in logs;
      SpellingWithinService(logs[..n], s);
    }
  }

  // ----- first seen, first listed -----

  /** The first error log under s comes before every error log under t. */
  ghost predicate SeenBefore(logs: seq<Log>, s: string, t: string) {
    exists k | 0 <= k < |logs| ::
      && logs[k].rest.serviceId == s && IsError(logs[k])
      && forall l | 0 <= l <= k :: !(logs[l].rest.serviceId == t && IsError(logs[l]))
  }

  lemma SeenBeforeLater(logs: seq<Log>, s: string, t: string)
    requires logs != [] && SeenBefore(logs[..|logs| - 1], s, t)
    ensures SeenBefore(logs, s, t)
  {
    var prefix := logs[..|logs| - 1];
    var k :| 0 <= k < |prefix| && prefix[k].rest.serviceId == s && IsError(prefix[k])
      && forall l | 0 <= l <= k :: !(prefix[l].rest.serviceId == t && IsError(prefix[l]));
    assert logs[k] == prefix[k] && forall l | 0 <= l <= k :: logs[l] == prefix[l];
  }

  lemma {:induction false} CountedIsSeen(logs: seq<Log>, s: string)
    ensures CountErrors(logs, s) > 0 <==> exists k | 0 <= k < |logs| :: logs[k].rest.serviceId == s && IsError(logs[k])
    decreases |logs|
  {
    if logs != [] {
      var n := |logs| - 1;
      CountedIsSeen(logs[..n], s);
      if CountErrors(logs[..n], s) > 0 {
        var k :| 0 <= k < n && logs[..n][k].rest.serviceId == s && IsError(logs[..n][k]);
        assert logs[k].rest.serviceId == s && IsError(logs[k]);
      }
      if k :| 0 <= k < |logs| && logs[k].rest.serviceId == s && IsError(logs[k]) {
        if k < n { assert logs[..n][k].rest.serviceId == s; }
      }
    }
  }

  /** The listed spellings come in the order in which an error log under each is first seen. */
  lemma {:induction false} ErrorServicesInOrder(logs: seq<Log>, i: nat, j: nat)
    requires i < j < |ErrorServices(logs)|
    ensures SeenBefore(logs, ErrorServices(logs)[i], ErrorServices(logs)[j])
    decreases |logs|
  {
    var n := |logs| - 1;
    var before := ErrorServices(logs[..n]);
    var s, t := ErrorServices(logs)[i], ErrorServices(logs)[j];
    if j < |before| {
      ErrorServicesInOrder(logs[..n], i, j);
      SeenBeforeLater(logs, s, t);
    } else {
      ErrorServicesAreThoseCounted(logs[..n]);
      CountedIsSeen(logs[..n], s);
      CountedIsSeen(logs[..n], t);
      assert s in before && t !in before;
      var k :| 0 <= k < n && logs[..n][k].rest.serviceId == s && IsError(logs[..n][k]);
      forall l | 0 <= l <= k ensures !(logs[l].rest.serviceId == t && IsError(logs[l])) {
        assert logs[..n][l] == logs[l];
      }
      assert logs[k].rest.serviceId == s && IsError(logs[k]);
    }
  }

  // ----- the batch count against the stored count -----

  lemma StampedSnoc(logs: seq<Log>, now: int)
    requires logs != []
    ensures Stamped(logs, now) == Stamped(logs[..|logs| - 1], now) + [StampedLog(logs[|logs| - 1], now)]
  {
  }

  lemma CountStoredSnoc(stored: seq<StoredLog>, l: StoredLog, s: string, since: int)
    ensures CountStored(stored + [l], s, since)
      == CountStored(stored, s, since) + if IsErrorSince(l, s, since) then 1 else 0
  {
    assert (stored + [l])[..|stored|] == stored;
  }

  lemma CountOfServiceSnoc(logs: seq<Log>, now: int, s: string, since: int)
    requires logs != [] && StampedLog(logs[|logs| - 1], now).timestamp >= since
    ensures CountOfService(logs, Lower(s)) == CountOfService(logs[..|logs| - 1], Lower(s))
      + if IsErrorSince(StampedLog(logs[|logs| - 1], now), s, since) then 1 else 0
  {
  }

  predicate AllSince(logs: seq<Log>, now: int, since: int) {
    forall i | 0 <= i < |logs| :: StampedLog(logs[i], now).timestamp >= since
  }

  lemma StampedAppend(stored: seq<StoredLog>, logs: seq<Log>, now: int)
    requires logs != []
    ensures stored + Stamped(logs, now)
      == stored + Stamped(logs[..|logs| - 1], now) + [StampedLog(logs[|logs| - 1], now)]
  {
    StampedSnoc(logs, now);
  }

  lemma {:induction false} CountStoredAppend(stored: seq<StoredLog>, logs: seq<Log>, now: int, s: string, since: int)
    requires AllSince(logs, now, since)
    ensures CountStored(stored + Stamped(logs, now), s, since)
      == CountStored(stored, s, since) + CountOfService(logs, Lower(s))
    decreases |logs|
  {
    if logs == [] {
      assert stored + Stamped(logs, now) == stored;
    } else {
      var prefix, last := logs[..|logs| - 1], logs[|logs| - 1];
      CountStoredAppend(stored, prefix, now, s, since);
      StampedAppend(stored, logs, now);
      CountStoredSnoc(stored + Stamped(prefix, now), StampedLog(last, now), s, since);
      CountOfServiceSnoc(logs, now, s, since);
    }
  }

  /**
    Right after a batch is stored, the 24-hour count of each service is at least its count in the
    batch, under all of its spellings together and so under each; so whenever the batch raises an
    error-log alert, storing one more error log alone would raise it too, and at least as severely. A
    log that comes without a time of its own, as those of a batch do, is stamped with the present.
   */
  lemma BatchCountWithinStored(stored: seq<StoredLog>, logs: seq<Log>, now: int, s: string)
    requires forall l | l in logs :: GetOr(l.rest.timestamp, now) >= now - DAY_MS
    ensures var count := CountStored(stored + Stamped(logs, now), s, now - DAY_MS);
      && CountErrors(logs, s) <= CountOfService(logs, Lower(s)) <= count
      && (LogErrorVolumeMatch(CountErrors(logs, s)).Some? ==>
            && LogErrorVolumeMatch(count).Some?
            && LogErrorVolumeMatch(count).value.title == LogErrorVolumeMatch(CountErrors(logs, s)).value.title
            && LogErrorVolumeMatch(count).value.severity.Rank()
                 >= LogErrorVolumeMatch(CountErrors(logs, s)).value.severity.Rank())
  {
    assert AllSince(logs, now, now - DAY_MS);
    CountStoredAppend(stored, logs, now, s, now - DAY_MS);
    SpellingWithinService(logs, s);
  }

  // ----- alert jobs -----

  function JobFor(serviceId: string, m: ThresholdMatch): AlertData {
    AlertData(KeyOf(serviceId, m.title), Some(m.severity), None, None, Some("in-app"), None)
  }

  function JobOf(serviceId: string, m: Option<ThresholdMatch>): seq<AlertData> {
    match m
    case None => []
    case Some(v) => [JobFor(serviceId, v)]
  }

  /** The alert for so many error logs of a service: critical from twenty on. */
  function VolumeAlert(serviceId: string, errors: nat): AlertData {
    AlertData(Key(Lower(serviceId), "Spike in error logs"), Some(if errors < 20 then Warning else Critical),
              None, None, Some("in-app"), None)
  }

  function SanitizedLogs(logs: seq<Log>): (r: seq<Log>)
    ensures |r| == |logs|
    ensures forall i | 0 <= i < |logs| :: r[i] == SanitizeLogPayload(logs[i])
  {
    seq(|logs|, i requires 0 <= i < |logs| => SanitizeLogPayload(logs[i]))
  }

  /** Sanitizing changes neither the service nor the level of a log, so it does not change which alerts are raised. */
  lemma {:induction false} SanitizingKeepsCounts(logs: seq<Log>, s: string)
    ensures CountErrors(SanitizedLogs(logs), s) == CountErrors(logs, s)
    decreases |logs|
  {
    if logs != [] {
      var n := |logs| - 1;
      SanitizingKeepsCounts(logs[..n], s);
      assert SanitizedLogs(logs)[..n] == SanitizedLogs(logs[..n]);
    }
  }

  /**
    What is stored of a log: its text without tokens, safe metadata, and its service, level and time,
    which is the present for a log that comes without one.
   */
  ghost predicate IsStored(stored: StoredLog, log: Log, now: int) {
    && SafePayload(stored.log) && Redacts(log.message, stored.log.message)
    && stored.log.metadata == (if log.metadata.None? then None else Some(SanitizedObject(log.metadata.value, 0)))
    && stored.log.rest == LogFields(Lower(log.rest.serviceId), log.rest.level, log.rest.timestamp)
    && stored.timestamp == (if log.rest.timestamp.Some? then log.rest.timestamp.value else now)
  }

  lemma SanitizedIsStored(log: Log, now: int)
    ensures Stamped([SanitizeLogPayload(log)], now) == [StampedLog(SanitizeLogPayload(log), now)]
    ensures IsStored(Stamped([SanitizeLogPayload(log)], now)[0], log, now)
  {
    SanitizedPayloadIsSafe(log);
    SanitizeStringRedacts(log.message, SanitizeString(log.message));
  }

  /** Each log of a batch is stored like this, in order. */
  ghost predicate AreStored(stored: seq<StoredLog>, logs: seq<Log>, now: int) {
    |stored| == |logs| && forall i | 0 <= i < |logs| :: IsStored(stored[i], logs[i], now)
  }

  lemma StampedAreStored(logs: seq<Log>, now: int)
    ensures AreStored(Stamped(SanitizedLogs(logs), now), logs, now)
  {
    forall i | 0 <= i < |logs| ensures IsStored(Stamped(SanitizedLogs(logs), now)[i], logs[i], now) {
      SanitizedIsStored(logs[i], now);
    }
  }

  /** The count does not depend on the spelling of the id asked for. */
  lemma {:induction false} SameServiceSameCount(stored: seq<StoredLog>, s: string, t: string, since: int)
    requires Lower(s) == Lower(t)
    ensures CountStored(stored, s, since) == CountStored(stored, t, since)
    decreases |stored|
  {
    if stored != [] { SameServiceSameCount(stored[..|stored| - 1], s, t, since); }
  }

  // ----- the store and the service -----

  class LogsRepository {
    var logs: seq<StoredLog>

    constructor ()
      ensures logs == []
    {
      logs := [];
    }

    method CreateMany(data: seq<Log>, now: int) returns (created: seq<StoredLog>)
      modifies this
      ensures created == Stamped(data, now) && logs == old(logs) + created
    {
      created := Stamped(data, now);
      logs := logs + created;
    }

    /** How many stored logs are ERROR or FATAL, of this service, and not older than the given time. */
    method CountErrorLogsForService(serviceId: string, since: int) returns (n: nat)
      ensures n == |ErrorPositions(logs, serviceId, since)|
    {
      CountStoredIsCardinality(logs, serviceId, since);
      n := CountStored(logs, serviceId, since);
    }
  }

  datatype LogError = ServiceNotFound

  class LogsService {
    const logsRepository: LogsRepository
    const alertsService: AlertsService

    constructor (l: LogsRepository, a: AlertsService)
      ensures logsRepository == l && alertsService == a
    {
      logsRepository := l;
      alertsService := a;
    }

    /**
      Stores one log and, when it is an error, alerts on the number of errors of the last day, itself
      included. When the alert store fails, the log stays stored and no alert is raised.
     */
    method Create(log: Log, serviceExists: bool, storedAt: int, countedAt: int, lookupAt: int, insertAt: int,
                  alertStoreFails: bool)
      returns (r: Result<StoredLog, LogError>)
      requires alertsService.repository.Valid()
      modifies logsRepository, alertsService.repository
      ensures alertsService.repository.Valid()
      ensures r.Err? <==> !serviceExists
      ensures r.Ok? ==> IsStored(r.value, log, storedAt)
      ensures logsRepository.logs == old(logsRepository.logs) + if r.Ok? then [r.value] else []
      ensures alertsService.repository.alerts ==
        var alerts := old(alertsService.repository.alerts);
        var errors := |ErrorPositions(logsRepository.logs, log.rest.serviceId, countedAt - 86_400_000)|;
        if r.Err? || log.rest.level !in {ERROR, FATAL} || alertStoreFails || errors < 10 then alerts
        else Created(alerts, VolumeAlert(log.rest.serviceId, errors), lookupAt, insertAt)
    {
      if !serviceExists { return Err(ServiceNotFound); }
      var sanitized := SanitizeLogPayload(log);
      SanitizedIsStored(log, storedAt);
      var created := logsRepository.CreateMany([sanitized], storedAt);
      r := Ok(created[0]);
      var stored := created[0].log;
      if IsError(stored) {
        var serviceId := stored.rest.serviceId;
        LowerIsLower(log.rest.serviceId);
        var count := logsRepository.CountErrorLogsForService(serviceId, countedAt - DAY_MS);
        SameServiceSameCount(logsRepository.logs, serviceId, log.rest.serviceId, countedAt - DAY_MS);
        CountStoredIsCardinality(logsRepository.logs, serviceId, countedAt - DAY_MS);
        CountStoredIsCardinality(logsRepository.logs, log.rest.serviceId, countedAt - DAY_MS);
        var m := LogErrorVolumeMatch(count);
        if m.Some? {
          var _ := alertsService.CreateSafely(JobFor(serviceId, m.value), lookupAt, insertAt, alertStoreFails);
        }
      }
    }
  }
}
