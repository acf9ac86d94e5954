/**
  The service that ingests a batch of logs and metrics, and the alert jobs it starts together
  (src/telemetry/telemetry.service.ts).
 */
module Telemetry {
  import opened AlertBatch
  import opened AlertInterleaving
  import opened AlertRuns
  import opened AlertThresholds
  import opened Alerts
  import opened Common
  import opened Logs
  import opened Sanitizer
  import opened Text

  datatype Metric = Metric(serviceId: string, name: string, value: real)

  // ----- the alert jobs of a batch -----

  function MetricJobs(metrics: seq<Metric>): seq<AlertData> {
    if metrics == [] then [] else
    var last := metrics[|metrics| - 1];
    MetricJobs(metrics[..|metrics| - 1]) + JobOf(last.serviceId, MatchMetricThreshold(last.name, last.value))
  }

  function VolumeJobs(services: seq<string>, logs: seq<Log>): seq<AlertData> {
    if services == [] then [] else
    var last := services[|services| - 1];
    VolumeJobs(services[..|services| - 1], logs) + JobOf(last, LogErrorVolumeMatch(CountErrors(logs, last)))
  }

  /** One job for each metric over its threshold, then one for each spelling of a service id with many error logs. */
  function ThresholdJobs(logs: seq<Log>, metrics: seq<Metric>): seq<AlertData> {
    MetricJobs(metrics) + VolumeJobs(ErrorServices(logs), logs)
  }

  lemma {:induction false} MetricJobsAre(metrics: seq<Metric>, d: AlertData)
    ensures d in MetricJobs(metrics) <==>
      exists m | m in metrics :: d in JobOf(m.serviceId, MatchMetricThreshold(m.name, m.value))
    decreases |metrics|
  {
    if metrics != [] {
      var n := |metrics| - 1;
      MetricJobsAre(metrics[..n], d);
      assert metrics == metrics[..n] + [metrics[n]];
    }
  }

  lemma {:induction false} VolumeJobsAre(services: seq<string>, logs: seq<Log>, d: AlertData)
    ensures d in VolumeJobs(services, logs) <==>
      exists s | s in services :: d in JobOf(s, LogErrorVolumeMatch(CountErrors(logs, s)))
    decreases |services|
  {
    if services != [] {
      var n := |services| - 1;
      VolumeJobsAre(services[..n], logs, d);
      assert services == services[..n] + [services[n]];
      assert VolumeJobs(services, logs) ==
        VolumeJobs(services[..n], logs) + JobOf(services[n], LogErrorVolumeMatch(CountErrors(logs, services[n])));
    }
  }

  function VolumeMatch(count: nat): ThresholdMatch {
    ThresholdMatch(LOG_TITLE, if count >= 20 then Critical else Warning)
  }

  /** The job asked for by ten or more error logs under one spelling of a service id. */
  predicate IsVolumeJob(logs: seq<Log>, s: string, d: AlertData) {
    CountErrors(logs, s) >= 10 && d == JobFor(s, VolumeMatch(CountErrors(logs, s)))
  }

  /** The jobs of a batch are exactly those of its matches, and none chooses a status or a time. */
  lemma JobsAreOfMatches(logs: seq<Log>, metrics: seq<Metric>, d: AlertData)
    ensures d in ThresholdJobs(logs, metrics) <==>
      || (exists m | m in metrics :: d in JobOf(m.serviceId, MatchMetricThreshold(m.name, m.value)))
      || (exists s :: IsVolumeJob(logs, s, d))
    ensures d in ThresholdJobs(logs, metrics) ==> d.FromProducer()
  {
    MetricJobsAre(metrics, d);
    VolumeJobsAre(ErrorServices(logs), logs, d);
    ErrorServicesAreThoseCounted(logs);
    forall s ensures d in JobOf(s, LogErrorVolumeMatch(CountErrors(logs, s))) <==> IsVolumeJob(logs, s, d) {
    }
  }

  /** The alert for a metric over the threshold of a rule: critical from one and a half times the threshold on. */
  function RuleAlert(m: Metric, rule: Rule): AlertData {
    AlertData(Key(Lower(m.serviceId), rule.title), Some(if m.value < 1.5 * rule.threshold then Warning else Critical),
              None, None, Some("in-app"), None)
  }

  /** The metric asks for this alert: it reaches the threshold of the first rule of the table for its name. */
  ghost predicate MetricAsksFor(m: Metric, d: AlertData) {
    exists i: nat :: FirstApplies(METRIC_RULES, Lower(m.name), i)
      && m.value >= METRIC_RULES[i].threshold && d == RuleAlert(m, METRIC_RULES[i])
  }

  /** The logs under this spelling ask for this alert: ten or more of them are ERROR or FATAL. */
  ghost predicate LogsAskFor(logs: seq<Log>, s: string, d: AlertData) {
    |ErrorsUnder(logs, s)| >= 10 && d == VolumeAlert(s, |ErrorsUnder(logs, s)|)
  }

  lemma MetricJobAsked(m: Metric, d: AlertData)
    ensures d in JobOf(m.serviceId, MatchMetricThreshold(m.name, m.value)) <==> MetricAsksFor(m, d)
  {
    var name := Lower(m.name);
    FindRuleIsFirst(METRIC_RULES, name);
    if i: nat :| FirstApplies(METRIC_RULES, name, i) {
      MetricMatchIsFirstRule(METRIC_RULES, m.name, m.value, i);
      forall k: nat | FirstApplies(METRIC_RULES, name, k) ensures k == i {
        assert !(k < i) && !(i < k);
      }
    }
  }

  lemma VolumeJobAsked(logs: seq<Log>, s: string, d: AlertData)
    ensures IsVolumeJob(logs, s, d) <==> LogsAskFor(logs, s, d)
  {
    CountErrorsIsCardinality(logs, s);
  }

  /**
    The jobs of a batch are exactly those that its metrics and its logs ask for: in-app, for the
    service that the id names in whatever spelling, with the title and severity of the rule.
   */
  lemma ThresholdJobsAre(logs: seq<Log>, metrics: seq<Metric>, d: AlertData)
    ensures d in ThresholdJobs(logs, metrics) <==>
      (exists m | m in metrics :: MetricAsksFor(m, d)) || (exists s :: LogsAskFor(logs, s, d))
  {
    JobsAreOfMatches(logs, metrics, d);
    forall m | m in metrics
      ensures d in JobOf(m.serviceId, MatchMetricThreshold(m.name, m.value)) <==> MetricAsksFor(m, d)
    {
      MetricJobAsked(m, d);
    }
    forall s ensures IsVolumeJob(logs, s, d) <==> LogsAskFor(logs, s, d) { VolumeJobAsked(logs, s, d); }
  }

  /** The error count under each spelling of a service id, in a map and the order of its insertions. */
  method CountByService(logs: seq<Log>) returns (order: seq<string>, errorCounts: map<string, nat>)
    ensures order == ErrorServices(logs)
    ensures forall s :: s in errorCounts <==> s in order
    ensures forall s | s in errorCounts :: errorCounts[s] == CountErrors(logs, s)
  {
    errorCounts := map[];
    order := [];
    for i := 0 to |logs|
      invariant order == ErrorServices(logs[..i])
      invariant forall s :: s in errorCounts <==> s in order
      invariant forall s | s in errorCounts :: errorCounts[s] == CountErrors(logs[..i], s)
    {
      assert logs[..i + 1][..i] == logs[..i];
      ErrorServicesAreThoseCounted(logs[..i]);
      var log := logs[i];
      if IsError(log) {
        var serviceId := log.rest.serviceId;
        if serviceId in errorCounts {
          errorCounts := errorCounts[serviceId := errorCounts[serviceId] + 1];
        } else {
          errorCounts := errorCounts[serviceId := 1];
          order := order + [serviceId];
        }
      }
    }
    assert logs[..|logs|] == logs;
  }

  /** The loops over the metrics and over the counted services. */
  method CollectJobs(logs: seq<Log>, metrics: seq<Metric>) returns (jobs: seq<AlertData>)
    ensures jobs == ThresholdJobs(logs, metrics)
  {
    jobs := [];
    for i := 0 to |metrics|
      invariant jobs == MetricJobs(metrics[..i])
    {
      assert metrics[..i + 1][..i] == metrics[..i];
      var metric := metrics[i];
      var m := MatchMetricThreshold(metric.name, metric.value);
      if m.None? { continue; }
      jobs := jobs + [JobFor(metric.serviceId, m.value)];
    }
    assert metrics[..|metrics|] == metrics;

    var order, errorCounts := CountByService(logs);
    for i := 0 to |order|
      invariant jobs == MetricJobs(metrics) + VolumeJobs(order[..i], logs)
    {
      assert order[..i + 1][..i] == order[..i];
      var m := LogErrorVolumeMatch(errorCounts[order[i]]);
      if m.None? { continue; }
      jobs := jobs + [JobFor(order[i], m.value)];
    }
    assert order[..|order|] == order;
  }

  // ----- the jobs of a batch, run at once -----

  /** Some job of the batch has this key. */
  ghost predicate HasJob(logs: seq<Log>, metrics: seq<Metric>, key: Key) {
    exists d | d in ThresholdJobs(logs, metrics) :: d.key == key
  }

  lemma MatchedKeysHaveJobs(logs: seq<Log>, metrics: seq<Metric>)
    ensures forall s | CountErrors(logs, s) >= 10 :: HasJob(logs, metrics, KeyOf(s, LOG_TITLE))
    ensures forall m | m in metrics && MatchMetricThreshold(m.name, m.value).Some? ::
      HasJob(logs, metrics, KeyOf(m.serviceId, MatchMetricThreshold(m.name, m.value).value.title))
  {
    forall s | CountErrors(logs, s) >= 10 ensures HasJob(logs, metrics, KeyOf(s, LOG_TITLE)) {
      var d := JobFor(s, VolumeMatch(CountErrors(logs, s)));
      assert IsVolumeJob(logs, s, d);
      JobsAreOfMatches(logs, metrics, d);
    }
    forall m | m in metrics && MatchMetricThreshold(m.name, m.value).Some?
      ensures HasJob(logs, metrics, KeyOf(m.serviceId, MatchMetricThreshold(m.name, m.value).value.title))
    {
      var d := JobFor(m.serviceId, MatchMetricThreshold(m.name, m.value).value);
      assert d in JobOf(m.serviceId, MatchMetricThreshold(m.name, m.value));
      JobsAreOfMatches(logs, metrics, d);
    }
  }

  /** No rule for metrics has the title of the rule for logs. */
  lemma MetricTitles(name: string, value: real)
    requires MatchMetricThreshold(name, value).Some?
    ensures MatchMetricThreshold(name, value).value.title != LOG_TITLE
  {
    RuleIsFromTable(METRIC_RULES, Lower(name));
    var title := MatchMetricThreshold(name, value).value.title;
    assert |title| > 0 && title[0] != 'S';
    assert LOG_TITLE[0] == 'S';
  }

  /** A service has an error-log job if and only if ten of its error logs come under one spelling of its id. */
  lemma ServiceHasJobIff(logs: seq<Log>, metrics: seq<Metric>, id: string)
    ensures HasJob(logs, metrics, Key(id, LOG_TITLE))
      <==> exists s :: Lower(s) == id && CountErrors(logs, s) >= 10
  {
    MatchedKeysHaveJobs(logs, metrics);
    if d :| d in ThresholdJobs(logs, metrics) && d.key == Key(id, LOG_TITLE) {
      JobsAreOfMatches(logs, metrics, d);
      if s :| IsVolumeJob(logs, s, d) { assert Lower(s) == id && CountErrors(logs, s) >= 10; }
      if m :| m in metrics && d in JobOf(m.serviceId, MatchMetricThreshold(m.name, m.value)) {
        MetricTitles(m.name, m.value);
      }
    }
  }

  /** Under one spelling throughout, that is if and only if it has ten error logs. */
  lemma OneSpellingHasJobIff(logs: seq<Log>, metrics: seq<Metric>, s: string)
    requires forall l | l in logs && IsError(l) && Lower(l.rest.serviceId) == Lower(s) :: l.rest.serviceId == s
    ensures HasJob(logs, metrics, KeyOf(s, LOG_TITLE)) <==> CountOfService(logs, Lower(s)) >= 10
  {
    ServiceHasJobIff(logs, metrics, Lower(s));
    SpellingWithinService(logs, s);
    forall t | Lower(t) == Lower(s) && CountErrors(logs, t) >= 10 ensures CountOfService(logs, Lower(s)) >= 10 {
      SpellingWithinService(logs, t);
    }
  }

  function Copies(log: Log, n: nat): seq<Log> {
    if n == 0 then [] else Copies(log, n - 1) + [log]
  }

  lemma {:induction false} CountCopies(logs: seq<Log>, log: Log, n: nat, s: string, id: string)
    requires IsError(log)
    ensures CountErrors(logs + Copies(log, n), s) == CountErrors(logs, s) + if log.rest.serviceId == s then n else 0
    ensures CountOfService(logs + Copies(log, n), id)
      == CountOfService(logs, id) + if Lower(log.rest.serviceId) == id then n else 0
    decreases n
  {
    if n == 0 {
      assert logs + Copies(log, n) == logs;
    } else {
      CountCopies(logs, log, n - 1, s, id);
      var all := logs + Copies(log, n);
      assert all[..|all| - 1] == logs + Copies(log, n - 1);
    }
  }

  /** Nine error logs under one spelling and nine under another are eighteen of one service, and raise nothing. */
  lemma SplitServiceIsSilent(first: Log, second: Log)
    requires IsError(first) && IsError(second) && first.rest.serviceId != second.rest.serviceId
    requires Lower(first.rest.serviceId) == Lower(second.rest.serviceId)
    ensures var logs := Copies(first, 9) + Copies(second, 9);
      && CountOfService(logs, Lower(first.rest.serviceId)) == 18
      && !HasJob(logs, [], KeyOf(first.rest.serviceId, LOG_TITLE))
  {
    var logs := Copies(first, 9) + Copies(second, 9);
    var id := Lower(first.rest.serviceId);
    ServiceHasJobIff(logs, [], id);
    forall s ensures CountErrors(logs, s) <= 9 && CountOfService(logs, id) == 18 {
      CountCopies([], first, 9, s, id);
      CountCopies(Copies(first, 9), second, 9, s, id);
      assert [] + Copies(first, 9) == Copies(first, 9);
    }
    assert CountErrors(logs, "") <= 9;
  }

  /** The alert jobs of an ingested batch, about to be started together. */
  function IngestSystem(alerts: seq<Alert>, logs: seq<Log>, metrics: seq<Metric>, clock: int): System {
    Batch(alerts, ThresholdJobs(logs, metrics), clock)
  }

  /**
    Every service with ten or more error logs under one spelling of its id, and every metric over its
    threshold, has a recent ACTIVE alert.
   */
  ghost predicate ThresholdsAlerted(alerts: seq<Alert>, logs: seq<Log>, metrics: seq<Metric>, clock: int) {
    && (forall s | CountErrors(logs, s) >= 10 :: Alerted(alerts, KeyOf(s, LOG_TITLE), clock))
    && (forall m | m in metrics && MatchMetricThreshold(m.name, m.value).Some? ::
          Alerted(alerts, KeyOf(m.serviceId, MatchMetricThreshold(m.name, m.value).value.title), clock))
  }

  /**
    However the alert jobs of an ingested batch interleave, without failures or status changes, at the
    end every metric over its threshold, and every service with ten error logs under one spelling of
    its id, has an ACTIVE alert triggered no earlier than 15 minutes before the jobs were started.
   */
  lemma ConcurrentIngestAlerts(alerts: seq<Alert>, logs: seq<Log>, metrics: seq<Metric>, clock: int, steps: seq<Step>)
    requires Interleaving(IngestSystem(alerts, logs, metrics, clock), steps)
    requires forall k | 0 <= k < |steps| :: Undisturbing(steps[k])
    requires AllEnded(At(IngestSystem(alerts, logs, metrics, clock), steps, |steps|))
    ensures var after := At(IngestSystem(alerts, logs, metrics, clock), steps, |steps|).alerts;
      ThresholdsAlerted(after, logs, metrics, clock)
  {
    BatchAlerts(alerts, ThresholdJobs(logs, metrics), clock, steps);
    MatchedKeysHaveJobs(logs, metrics);
  }

  /** Sanitizing the logs first makes no difference to the jobs. */
  lemma SanitizingKeepsJobs(logs: seq<Log>, metrics: seq<Metric>)
    ensures ThresholdJobs(SanitizedLogs(logs), metrics) == ThresholdJobs(logs, metrics)
  {
    SanitizingKeepsServices(logs);
    SanitizingKeepsVolumeJobs(ErrorServices(logs), logs);
  }

  lemma {:induction false} SanitizingKeepsServices(logs: seq<Log>)
    ensures ErrorServices(SanitizedLogs(logs)) == ErrorServices(logs)
    decreases |logs|
  {
    if logs != [] {
      var n := |logs| - 1;
      SanitizingKeepsServices(logs[..n]);
      assert SanitizedLogs(logs)[..n] == SanitizedLogs(logs[..n]);
    }
  }

  lemma {:induction false} SanitizingKeepsVolumeJobs(services: seq<string>, logs: seq<Log>)
    ensures VolumeJobs(services, SanitizedLogs(logs)) == VolumeJobs(services, logs)
    decreases |services|
  {
    if services != [] {
      SanitizingKeepsVolumeJobs(services[..|services| - 1], logs);
      SanitizingKeepsCounts(logs, services[|services| - 1]);
    }
  }

  /** Each alert that was added is one that a metric or the logs of the batch ask for. */
  ghost predicate AddedIsAsked(before: seq<Alert>, after: seq<Alert>, logs: seq<Log>, metrics: seq<Metric>) {
    && |before| <= |after|
    && forall k | |before| <= k < |after| :: IsAskedByBatch(after[k], logs, metrics)
  }

  ghost predicate IsAskedByBatch(a: Alert, logs: seq<Log>, metrics: seq<Metric>) {
    exists d :: AskedFor(a, d)
      && ((exists m | m in metrics :: MetricAsksFor(m, d)) || (exists s :: LogsAskFor(logs, s, d)))
  }

  /** However the jobs interleave, whatever fails and whatever is updated, a batch adds no other alerts. */
  lemma IngestAddsWhatIsAsked(alerts: seq<Alert>, logs: seq<Log>, metrics: seq<Metric>, clock: int, steps: seq<Step>)
    ensures AddedIsAsked(alerts, At(IngestSystem(alerts, logs, metrics, clock), steps, |steps|).alerts, logs, metrics)
  {
    var jobs := ThresholdJobs(logs, metrics);
    BatchAddsForJobs(alerts, jobs, clock, steps, |steps|);
    var after := At(IngestSystem(alerts, logs, metrics, clock), steps, |steps|).alerts;
    forall k | |alerts| <= k < |after| ensures IsAskedByBatch(after[k], logs, metrics) {
      assert IsAskedFor(after[k], jobs);
      var d :| d in jobs && AskedFor(after[k], d);
      ThresholdJobsAre(logs, metrics, d);
    }
  }

  /** Both together, for a batch whose logs have been sanitized. */
  lemma IngestOutcome(alerts: seq<Alert>, logs: seq<Log>, metrics: seq<Metric>, clock: int, steps: seq<Step>)
    requires Interleaving(IngestSystem(alerts, logs, metrics, clock), steps)
    requires AllEnded(At(IngestSystem(alerts, logs, metrics, clock), steps, |steps|))
    ensures ThresholdJobs(SanitizedLogs(logs), metrics) == ThresholdJobs(logs, metrics)
    ensures var after := At(IngestSystem(alerts, logs, metrics, clock), steps, |steps|).alerts;
      && AddedIsAsked(alerts, after, logs, metrics)
      && ((forall k | 0 <= k < |steps| :: Undisturbing(steps[k])) ==> ThresholdsAlerted(after, logs, metrics, clock))
  {
    SanitizingKeepsJobs(logs, metrics);
    IngestAddsWhatIsAsked(alerts, logs, metrics, clock, steps);
    if forall k | 0 <= k < |steps| :: Undisturbing(steps[k]) {
      ConcurrentIngestAlerts(alerts, logs, metrics, clock, steps);
    }
  }

  // ----- which batches can race with themselves -----

  /** No two metrics of the batch are over a threshold of the same rule for the same service, however it is spelled. */
  predicate MetricsApart(metrics: seq<Metric>) {
    forall i, j | 0 <= i < j < |metrics| :: !SameAlert(metrics[i], metrics[j])
  }

  predicate SameAlert(a: Metric, b: Metric) {
    var m, n := MatchMetricThreshold(a.name, a.value), MatchMetricThreshold(b.name, b.value);
    m.Some? && n.Some? && Lower(a.serviceId) == Lower(b.serviceId) && m.value.title == n.value.title
  }

  /** Some metric of the list asks for the same alert as this one. */
  predicate AskedBefore(metrics: seq<Metric>, m: Metric) {
    exists i | 0 <= i < |metrics| :: SameAlert(metrics[i], m)
  }

  lemma MetricsApartStep(metrics: seq<Metric>)
    requires metrics != []
    ensures var n := |metrics| - 1;
      MetricsApart(metrics) <==> MetricsApart(metrics[..n]) && !AskedBefore(metrics[..n], metrics[n])
  {
    var n := |metrics| - 1;
    var prefix := metrics[..n];
    if MetricsApart(prefix) && !AskedBefore(prefix, metrics[n]) {
      forall i, j | 0 <= i < j < |metrics| ensures !SameAlert(metrics[i], metrics[j]) {
        assert prefix[i] == metrics[i];
        if j < n { assert prefix[j] == metrics[j]; }
      }
    }
    if MetricsApart(metrics) {
      forall i, j | 0 <= i < j < n ensures !SameAlert(prefix[i], prefix[j]) {
        assert !SameAlert(metrics[i], metrics[j]);
      }
      forall i | 0 <= i < n ensures !SameAlert(prefix[i], metrics[n]) { assert !SameAlert(metrics[i], metrics[n]); }
    }
  }

  predicate ShareKey(a: seq<AlertData>, b: seq<AlertData>) {
    exists x, y | x in a && y in b :: x.key == y.key
  }

  lemma DistinctSnoc(a: seq<AlertData>, b: seq<AlertData>)
    requires |b| <= 1
    ensures DistinctData(a + b) <==> (DistinctData(a) && !ShareKey(a, b))
  {
    DistinctConcat(a, b);
  }

  lemma MetricJobsStep(metrics: seq<Metric>, prefix: seq<Metric>, last: Metric)
    requires metrics != [] && prefix == metrics[..|metrics| - 1] && last == metrics[|metrics| - 1]
    ensures DistinctData(MetricJobs(metrics)) <==> (DistinctData(MetricJobs(prefix)) && !AskedBefore(prefix, last))
  {
    DistinctSnoc(MetricJobs(prefix), JobOf(last.serviceId, MatchMetricThreshold(last.name, last.value)));
    KeyInMetricJobs(prefix, last);
  }

  lemma {:induction false} MetricJobsDistinct(metrics: seq<Metric>)
    ensures DistinctData(MetricJobs(metrics)) <==> MetricsApart(metrics)
    decreases |metrics|
  {
    if metrics != [] {
      MetricJobsDistinct(metrics[..|metrics| - 1]);
      MetricJobsStep(metrics, metrics[..|metrics| - 1], metrics[|metrics| - 1]);
      MetricsApartStep(metrics);
    }
  }

  /** Some job of earlier metrics has the key of this metric's job exactly when one of them is the same alert. */
  lemma KeyInMetricJobs(metrics: seq<Metric>, m: Metric)
    ensures ShareKey(MetricJobs(metrics), JobOf(m.serviceId, MatchMetricThreshold(m.name, m.value)))
      <==> AskedBefore(metrics, m)
  {
    var jobs := JobOf(m.serviceId, MatchMetricThreshold(m.name, m.value));
    if x, y :| x in MetricJobs(metrics) && y in jobs && x.key == y.key {
      MetricJobsAre(metrics, x);
      var e :| e in metrics && x in JobOf(e.serviceId, MatchMetricThreshold(e.name, e.value));
      var i :| 0 <= i < |metrics| && metrics[i] == e;
      assert SameAlert(metrics[i], m);
    }
    if i :| 0 <= i < |metrics| && SameAlert(metrics[i], m) {
      var e := metrics[i];
      var x := JobFor(e.serviceId, MatchMetricThreshold(e.name, e.value).value);
      var y := JobFor(m.serviceId, MatchMetricThreshold(m.name, m.value).value);
      assert e in metrics && x in JobOf(e.serviceId, MatchMetricThreshold(e.name, e.value));
      MetricJobsAre(metrics, x);
      assert y in jobs && x.key == y.key;
    }
  }

  /** No two spellings of one service each have ten or more error logs in the batch. */
  ghost predicate LogsApart(logs: seq<Log>) {
    forall s, t | s != t && Lower(s) == Lower(t) :: !(CountErrors(logs, s) >= 10 && CountErrors(logs, t) >= 10)
  }

  /** The same for a list of spellings. */
  predicate SpellingsApart(services: seq<string>, logs: seq<Log>) {
    forall i, j | 0 <= i < j < |services| :: !SameVolume(services[i], services[j], logs)
  }

  predicate SameVolume(s: string, t: string, logs: seq<Log>) {
    Lower(s) == Lower(t) && CountErrors(logs, s) >= 10 && CountErrors(logs, t) >= 10
  }

  predicate CountedBefore(services: seq<string>, t: string, logs: seq<Log>) {
    exists i | 0 <= i < |services| :: SameVolume(services[i], t, logs)
  }

  lemma SpellingsApartStep(services: seq<string>, logs: seq<Log>)
    requires services != []
    ensures var n := |services| - 1;
      SpellingsApart(services, logs) <==>
        SpellingsApart(services[..n], logs) && !CountedBefore(services[..n], services[n], logs)
  {
    var n := |services| - 1;
    var prefix := services[..n];
    if SpellingsApart(prefix, logs) && !CountedBefore(prefix, services[n], logs) {
      forall i, j | 0 <= i < j < |services| ensures !SameVolume(services[i], services[j], logs) {
        assert prefix[i] == services[i];
        if j < n { assert prefix[j] == services[j]; }
      }
    }
    if SpellingsApart(services, logs) {
      forall i, j | 0 <= i < j < n ensures !SameVolume(prefix[i], prefix[j], logs) {
        assert !SameVolume(services[i], services[j], logs);
      }
      forall i | 0 <= i < n ensures !SameVolume(prefix[i], services[n], logs) {
        assert !SameVolume(services[i], services[n], logs);
      }
    }
  }

  lemma KeyInVolumeJobs(services: seq<string>, t: string, logs: seq<Log>)
    ensures ShareKey(VolumeJobs(services, logs), JobOf(t, LogErrorVolumeMatch(CountErrors(logs, t))))
      <==> CountedBefore(services, t, logs)
  {
    var jobs := JobOf(t, LogErrorVolumeMatch(CountErrors(logs, t)));
    if x, y :| x in VolumeJobs(services, logs) && y in jobs && x.key == y.key {
      VolumeJobsAre(services, logs, x);
      var s :| s in services && x in JobOf(s, LogErrorVolumeMatch(CountErrors(logs, s)));
      var i :| 0 <= i < |services| && services[i] == s;
      assert SameVolume(services[i], t, logs);
    }
    if i :| 0 <= i < |services| && SameVolume(services[i], t, logs) {
      var x := JobFor(services[i], VolumeMatch(CountErrors(logs, services[i])));
      var y := JobFor(t, VolumeMatch(CountErrors(logs, t)));
      assert services[i] in services && x in JobOf(services[i], LogErrorVolumeMatch(CountErrors(logs, services[i])));
      VolumeJobsAre(services, logs, x);
      assert y in jobs && x.key == y.key;
    }
  }

  lemma {:induction false} VolumeJobsDistinct(services: seq<string>, logs: seq<Log>)
    ensures DistinctData(VolumeJobs(services, logs)) <==> SpellingsApart(services, logs)
    decreases |services|
  {
    if services != [] {
      var prefix, last := services[..|services| - 1], services[|services| - 1];
      VolumeJobsDistinct(prefix, logs);
      SpellingsApartStep(services, logs);
      DistinctSnoc(VolumeJobs(prefix, logs), JobOf(last, LogErrorVolumeMatch(CountErrors(logs, last))));
      KeyInVolumeJobs(prefix, last, logs);
    }
  }

  /** The spellings that the loop counts are all that matter. */
  lemma CountedSpellingsApart(logs: seq<Log>)
    ensures SpellingsApart(ErrorServices(logs), logs) <==> LogsApart(logs)
  {
    var services := ErrorServices(logs);
    ErrorServicesAreThoseCounted(logs);
    if SpellingsApart(services, logs) {
      forall s, t | s != t && Lower(s) == Lower(t)
        ensures !(CountErrors(logs, s) >= 10 && CountErrors(logs, t) >= 10)
      {
        if CountErrors(logs, s) >= 10 && CountErrors(logs, t) >= 10 {
          var i :| 0 <= i < |services| && services[i] == s;
          var j :| 0 <= j < |services| && services[j] == t;
          assert SameVolume(services[i], services[j], logs) && SameVolume(services[j], services[i], logs);
        }
      }
    }
  }

  lemma MetricJobTitle(metrics: seq<Metric>, d: AlertData)
    requires d in MetricJobs(metrics)
    ensures d.key.title != LOG_TITLE
  {
    MetricJobsAre(metrics, d);
    var m :| m in metrics && d in JobOf(m.serviceId, MatchMetricThreshold(m.name, m.value));
    MetricTitles(m.name, m.value);
  }

  lemma VolumeJobTitle(services: seq<string>, logs: seq<Log>, d: AlertData)
    requires d in VolumeJobs(services, logs)
    ensures d.key.title == LOG_TITLE
  {
    VolumeJobsAre(services, logs, d);
  }

  /**
    Two jobs of a batch have the same key exactly when two metrics of one service are over a threshold
    of one rule, or two spellings of one service each have ten or more error logs.
   */
  lemma ThresholdJobsDistinct(logs: seq<Log>, metrics: seq<Metric>)
    ensures DistinctData(ThresholdJobs(logs, metrics)) <==> MetricsApart(metrics) && LogsApart(logs)
  {
    var volume := VolumeJobs(ErrorServices(logs), logs);
    MetricJobsDistinct(metrics);
    VolumeJobsDistinct(ErrorServices(logs), logs);
    CountedSpellingsApart(logs);
    forall x, y | x in MetricJobs(metrics) && y in volume ensures x.key != y.key {
      MetricJobTitle(metrics, x);
      VolumeJobTitle(ErrorServices(logs), logs, y);
    }
    DistinctConcat(MetricJobs(metrics), volume);
  }

  /**
    An ingested batch keeps the ACTIVE alerts of each key more than 15 minutes apart, however its jobs
    interleave, if and only if no two of its metrics ask for the same alert and no two spellings of one
    service each have ten or more error logs.
   */
  lemma IngestIsSpacedIff(alerts: seq<Alert>, logs: seq<Log>, metrics: seq<Metric>, clock: int)
    requires Spaced(alerts, clock)
    ensures AlwaysSpaced(IngestSystem(alerts, logs, metrics, clock)) <==> MetricsApart(metrics) && LogsApart(logs)
  {
    forall d | d in ThresholdJobs(logs, metrics) ensures d.FromProducer() { JobsAreOfMatches(logs, metrics, d); }
    BatchRacesIff(alerts, ThresholdJobs(logs, metrics), clock);
    ThresholdJobsDistinct(logs, metrics);
  }

  // ----- the stores and the service -----

  class MetricsRepository {
    var metrics: seq<Metric>

    constructor ()
      ensures metrics == []
    {
      metrics := [];
    }

    method CreateMany(data: seq<Metric>) returns (created: seq<Metric>)
      modifies this
      ensures created == StoredMetrics(data) && metrics == old(metrics) + created
    {
      created := StoredMetrics(data);
      metrics := metrics + created;
    }
  }

  /** In the store a service id has one spelling; nothing else of a metric changes, nor the order. */
  function StoredMetrics(data: seq<Metric>): (r: seq<Metric>)
    ensures |r| == |data|
    ensures forall i | 0 <= i < |data| :: r[i] == Metric(Lower(data[i].serviceId), data[i].name, data[i].value)
  {
    seq(|data|, i requires 0 <= i < |data| => data[i].(serviceId := Lower(data[i].serviceId)))
  }

  datatype Accepted = Accepted(logs: nat, metrics: nat)

  class TelemetryService {
    const logsRepository: LogsRepository
    const metricsRepository: MetricsRepository
    const alertsService: AlertsService

    constructor (l: LogsRepository, m: MetricsRepository, a: AlertsService)
      ensures logsRepository == l && metricsRepository == m && alertsService == a
    {
      logsRepository := l;
      metricsRepository := m;
      alertsService := a;
    }

    /**
      Stores the sanitized batch, starts its alert jobs together, and awaits them. How the jobs
      interleave with each other and with the rest of the world is up to the schedule.
     */
    method Ingest(logs: seq<Log>, metrics: seq<Metric>, source: Option<seq<Entry>>, now: int,
                  clock: int, steps: seq<Step>)
      returns (accepted: Accepted, cleanSource: seq<Entry>)
      requires Interleaving(IngestSystem(alertsService.repository.alerts, logs, metrics, clock), steps)
      requires var s := IngestSystem(alertsService.repository.alerts, logs, metrics, clock);
        AllEnded(At(s, steps, |steps|))
      modifies logsRepository, metricsRepository, alertsService.repository
      ensures alertsService.repository.Valid()
      ensures accepted == Accepted(|logs|, |metrics|)
      ensures logsRepository.logs == old(logsRepository.logs) + Stamped(SanitizedLogs(logs), now)
      ensures AreStored(Stamped(SanitizedLogs(logs), now), logs, now)
      ensures metricsRepository.metrics == old(metricsRepository.metrics) + StoredMetrics(metrics)
      ensures SafeEntries(cleanSource)
      ensures cleanSource == if source.None? then [] else SanitizedObject(source.value, 0)
      ensures var s := IngestSystem(old(alertsService.repository.alerts), logs, metrics, clock);
        alertsService.repository.alerts == At(s, steps, |steps|).alerts
      ensures AddedIsAsked(old(alertsService.repository.alerts), alertsService.repository.alerts, logs, metrics)
      ensures (forall k | 0 <= k < |steps| :: Undisturbing(steps[k])) ==>
        ThresholdsAlerted(alertsService.repository.alerts, logs, metrics, clock)
    {
      var sanitized := SanitizedLogs(logs);
      StampedAreStored(logs, now);
      var clean := SanitizeObject(source, 0);
      cleanSource := if clean.None? then [] else clean.value;
      if source.Some? { SanitizedObjectIdempotent(source.value, 0); }

      var createdLogs: seq<StoredLog> := [];
      if |sanitized| > 0 { createdLogs := logsRepository.CreateMany(sanitized, now); }
      var createdMetrics: seq<Metric> := [];
      if |metrics| > 0 { createdMetrics := metricsRepository.CreateMany(metrics); }
      accepted := Accepted(|createdLogs|, |createdMetrics|);

      IngestOutcome(alertsService.repository.alerts, logs, metrics, clock, steps);
      var jobs := CollectJobs(sanitized, metrics);
      RunAll(alertsService, jobs, clock, steps);
    }
  }

  /** One step of a schedule: an access of one job to the clock or to the store, or what somebody else does. */
  method Perform(alerts: AlertsService, now: int, running: seq<Job>, step: Step) returns (now': int, running': seq<Job>)
    requires alerts.repository.Valid() && Enabled(System(now, alerts.repository.alerts, running), step)
    modifies alerts.repository
    ensures alerts.repository.Valid()
    ensures System(now', alerts.repository.alerts, running')
      == Next(System(now, old(alerts.repository.alerts), running), step)
  {
    now', running' := now, running;
    match step
    case Tick(ms) => now' := now + ms;
    case Start(j) => running' := running[j := running[j].(phase := Started(now - ALERT_DEDUPE_WINDOW_MS))];
    case Lookup(j) =>
      var since := running[j].phase.since;
      var duplicate := alerts.repository.FindActiveDuplicate(running[j].data.key, since);
      var phase := if duplicate.Some? then Answered(duplicate.value.id) else Missed(since);
      running' := running[j := running[j].(phase := phase)];
    case Insert(j) =>
      var data := running[j].data;
      var alert := alerts.repository.Create(data.(channel := Some(GetOr(data.channel, "in-app"))), now);
      running' := running[j := running[j].(phase := Inserted(alert.id))];
    case Fail(j) => running' := running[j := running[j].(phase := Failed)];
    case SetStatus(id, status) => var _ := alerts.Update(id, status, now);
  }

  /** Starts alert jobs together and runs them to the end of a schedule. */
  method RunAll(alerts: AlertsService, jobs: seq<AlertData>, clock: int, steps: seq<Step>)
    requires Interleaving(Batch(alerts.repository.alerts, jobs, clock), steps)
    modifies alerts.repository
    ensures alerts.repository.Valid()
    ensures alerts.repository.alerts == At(Batch(old(alerts.repository.alerts), jobs, clock), steps, |steps|).alerts
  {
    ghost var s0 := Batch(alerts.repository.alerts, jobs, clock);
    var now, running := clock, Waitings(jobs);
    for i := 0 to |steps|
      invariant alerts.repository.Valid()
      invariant At(s0, steps, i) == System(now, alerts.repository.alerts, running)
    {
      EnabledAt(s0, steps, i);
      now, running := Perform(alerts, now, running, steps[i]);
    }
  }
}
