/**
  What a whole batch of concurrent alert jobs achieves (src/telemetry/telemetry.service.ts:49-99):
  which keys end up alerted, and how many alerts it takes.
 */
module AlertBatch {
  import opened AlertInterleaving
  import opened AlertRuns
  import opened AlertThresholds
  import opened Alerts
  import opened Runs

  /** A step of a batch in which no job fails and no status is changed. */
  predicate Undisturbing(step: Step) {
    !step.Fail? && !step.SetStatus?
  }

  predicate Done(p: Phase) {
    p.Answered? || p.Inserted?
  }

  /** Every job has come to its end, which is what the producers await. */
  predicate AllEnded(s: System) {
    forall j | 0 <= j < |s.jobs| :: Done(s.jobs[j].phase) || s.jobs[j].phase.Failed?
  }

  /** A batch of jobs that have not started yet. */
  function Batch(alerts: seq<Alert>, datas: seq<AlertData>, clock: int): System {
    System(clock, alerts, Waitings(datas))
  }

  function Waitings(datas: seq<AlertData>): (r: seq<Job>)
    ensures |r| == |datas|
    ensures forall j | 0 <= j < |datas| :: r[j] == Job(datas[j], Waiting)
  {
    seq(|datas|, j requires 0 <= j < |datas| => Job(datas[j], Waiting))
  }

  /** Some ACTIVE alert of the key is recent enough to stand for it at the given time. */
  ghost predicate Alerted(alerts: seq<Alert>, key: Key, at: int) {
    exists a | a in alerts :: IsDuplicate(a, key, at - ALERT_DEDUPE_WINDOW_MS)
  }

  function CountInserted(jobs: seq<Job>): nat {
    if jobs == [] then 0 else (if jobs[0].phase.Inserted? then 1 else 0) + CountInserted(jobs[1..])
  }

  lemma {:induction false} CountInsertedUpdate(jobs: seq<Job>, j: nat, job: Job)
    requires j < |jobs| && !jobs[j].phase.Inserted?
    ensures CountInserted(jobs[j := job]) == CountInserted(jobs) + if job.phase.Inserted? then 1 else 0
    decreases jobs
  {
    if j == 0 {
      assert jobs[j := job][1..] == jobs[1..];
    } else {
      assert jobs[j := job][1..] == jobs[1..][j - 1 := job];
      CountInsertedUpdate(jobs[1..], j - 1, job);
    }
  }

  lemma {:induction false} CountInsertedBounds(jobs: seq<Job>)
    ensures CountInserted(jobs) <= |jobs|
    ensures (forall j | 0 <= j < |jobs| :: !jobs[j].phase.Inserted?) ==> CountInserted(jobs) == 0
    decreases jobs
  {
    if jobs != [] { CountInsertedBounds(jobs[1..]); }
  }

  /** The alert a finished job points to stands for the job's key since before the batch's window began. */
  predicate Points(s0: System, s: System, data: AlertData, p: Phase) {
    match p
    case Answered(id) => PointsTo(s0, s, data, id)
    case Inserted(id) => PointsTo(s0, s, data, id)
    case Started(since) => since >= s0.clock - ALERT_DEDUPE_WINDOW_MS
    case Missed(since) => since >= s0.clock - ALERT_DEDUPE_WINDOW_MS
    case Waiting => true
    case Failed => false
  }

  predicate PointsTo(s0: System, s: System, data: AlertData, id: nat) {
    id < |s.alerts| && IsDuplicate(s.alerts[id], data.key, s0.clock - ALERT_DEDUPE_WINDOW_MS)
  }

  /** Every state of a batch: the old alerts are untouched, each new one came from one insert. */
  ghost predicate InBatch(s0: System, s: System) {
    && Numbered(s.alerts) && s0.clock <= s.clock && s0.alerts <= s.alerts && |s.jobs| == |s0.jobs|
    && (forall j | 0 <= j < |s.jobs| ::
          && s.jobs[j].data == s0.jobs[j].data && s.jobs[j].data.FromProducer()
          && Points(s0, s, s.jobs[j].data, s.jobs[j].phase))
    && |s.alerts| == |s0.alerts| + CountInserted(s.jobs)
  }

  lemma InitiallyInBatch(s0: System)
    requires Initial(s0)
    ensures InBatch(s0, s0)
  {
    CountInsertedBounds(s0.jobs);
  }

  lemma LookupKeepsBatch(s0: System, s: System, j: nat)
    requires InBatch(s0, s) && Enabled(s, Lookup(j))
    ensures InBatch(s0, Next(s, Lookup(j)))
  {
    var t := Next(s, Lookup(j));
    var since := s.jobs[j].phase.since;
    var found := FindDuplicate(s.alerts, s.jobs[j].data.key, since);
    CountInsertedUpdate(s.jobs, j, t.jobs[j]);
    if found.Some? {
      var i :| 0 <= i < |s.alerts| && s.alerts[i] == found.value;
    }
  }

  lemma InsertKeepsBatch(s0: System, s: System, j: nat)
    requires InBatch(s0, s) && Enabled(s, Insert(j))
    ensures InBatch(s0, Next(s, Insert(j)))
  {
    CountInsertedUpdate(s.jobs, j, Next(s, Insert(j)).jobs[j]);
  }

  lemma StepKeepsBatch(s0: System, s: System, step: Step)
    requires InBatch(s0, s) && Enabled(s, step) && Undisturbing(step)
    ensures InBatch(s0, Next(s, step))
  {
    match step
    case Start(j) => CountInsertedUpdate(s.jobs, j, Next(s, step).jobs[j]);
    case Lookup(j) => LookupKeepsBatch(s0, s, j);
    case Insert(j) => InsertKeepsBatch(s0, s, j);
    case _ =>
  }

  lemma {:induction false} AlwaysInBatch(s0: System, steps: seq<Step>, i: nat)
    requires Interleaving(s0, steps) && i <= |steps|
    requires forall k | 0 <= k < |steps| :: Undisturbing(steps[k])
    ensures InBatch(s0, At(s0, steps, i))
    decreases i
  {
    if i == 0 {
      InitiallyInBatch(s0);
    } else {
      AlwaysInBatch(s0, steps, i - 1);
      StepKeepsBatch(s0, At(s0, steps, i - 1), steps[i - 1]);
    }
  }

  // ----- the keys that need an alert -----

  /** The keys of a batch for which no recent ACTIVE alert was stored when it began. */
  ghost function Uncovered(alerts: seq<Alert>, datas: seq<AlertData>, at: int): set<Key> {
    set d | d in datas && !Alerted(alerts, d.key, at) :: d.key
  }

  function DataOf(jobs: seq<Job>): (r: seq<AlertData>)
    ensures |r| == |jobs| && forall j | 0 <= j < |jobs| :: r[j] == jobs[j].data
  {
    seq(|jobs|, j requires 0 <= j < |jobs| => jobs[j].data)
  }

  ghost function KeysOf(alerts: seq<Alert>): set<Key> {
    set a | a in alerts :: a.key
  }

  lemma {:induction false} FewerKeysThanAlerts(alerts: seq<Alert>)
    ensures |KeysOf(alerts)| <= |alerts|
    decreases |alerts|
  {
    if alerts != [] {
      FewerKeysThanAlerts(alerts[1..]);
      assert alerts == [alerts[0]] + alerts[1..];
      assert KeysOf(alerts) == {alerts[0].key} + KeysOf(alerts[1..]);
    }
  }

  lemma SubsetIsSmaller<T>(a: set<T>, b: set<T>)
    requires a <= b
    ensures |a| <= |b|
  {
    assert a + (b - a) == b;
  }

  /** A key that was uncovered when the batch began is the key of an alert that the batch inserted. */
  lemma UncoveredKeyIsInserted(s0: System, s: System, j: nat)
    requires InBatch(s0, s) && j < |s.jobs| && Done(s.jobs[j].phase)
    ensures Alerted(s.alerts, s.jobs[j].data.key, s0.clock)
    ensures !Alerted(s0.alerts, s.jobs[j].data.key, s0.clock) ==>
      s.jobs[j].data.key in KeysOf(s.alerts[|s0.alerts|..])
  {
    var id := s.jobs[j].phase.id;
    assert PointsTo(s0, s, s.jobs[j].data, id);
    assert s.alerts[id] in s.alerts;
    if id < |s0.alerts| {
      assert s0.alerts[id] == s.alerts[id] && s0.alerts[id] in s0.alerts;
    } else {
      var added := s.alerts[|s0.alerts|..];
      assert added[id - |s0.alerts|] == s.alerts[id] && s.alerts[id] in added;
    }
  }

  lemma UncoveredAreInserted(s0: System, s: System)
    requires InBatch(s0, s) && forall j | 0 <= j < |s.jobs| :: Done(s.jobs[j].phase)
    ensures Uncovered(s0.alerts, DataOf(s0.jobs), s0.clock) <= KeysOf(s.alerts[|s0.alerts|..])
  {
    forall key | key in Uncovered(s0.alerts, DataOf(s0.jobs), s0.clock) ensures key in KeysOf(s.alerts[|s0.alerts|..]) {
      var d :| d in DataOf(s0.jobs) && d.key == key && !Alerted(s0.alerts, d.key, s0.clock);
      var j :| 0 <= j < |s0.jobs| && DataOf(s0.jobs)[j] == d;
      UncoveredKeyIsInserted(s0, s, j);
    }
  }

  lemma EndedBatch(s0: System, s: System)
    requires InBatch(s0, s) && AllEnded(s)
    ensures forall j | 0 <= j < |s0.jobs| :: Alerted(s.alerts, s0.jobs[j].data.key, s0.clock)
    ensures |Uncovered(s0.alerts, DataOf(s0.jobs), s0.clock)| <= |s.alerts| - |s0.alerts| <= |s0.jobs|
  {
    CountInsertedBounds(s.jobs);
    forall j | 0 <= j < |s0.jobs| ensures Done(s.jobs[j].phase) && Alerted(s.alerts, s0.jobs[j].data.key, s0.clock) {
      assert Points(s0, s, s.jobs[j].data, s.jobs[j].phase);
      UncoveredKeyIsInserted(s0, s, j);
    }
    UncoveredAreInserted(s0, s);
    FewerKeysThanAlerts(s.alerts[|s0.alerts|..]);
    SubsetIsSmaller(Uncovered(s0.alerts, DataOf(s0.jobs), s0.clock), KeysOf(s.alerts[|s0.alerts|..]));
  }

  /**
    Every interleaving of a batch that runs to its end, without failures or status changes, leaves
    each job's key with an ACTIVE alert triggered no earlier than 15 minutes before the batch began.
    It inserts at least one alert for each uncovered key, and at most one for each job.
   */
  lemma BatchOutcome(s0: System, steps: seq<Step>)
    requires Interleaving(s0, steps)
    requires forall k | 0 <= k < |steps| :: Undisturbing(steps[k])
    requires AllEnded(At(s0, steps, |steps|))
    ensures var s := At(s0, steps, |steps|);
      && s0.alerts <= s.alerts
      && (forall j | 0 <= j < |s0.jobs| :: Alerted(s.alerts, s0.jobs[j].data.key, s0.clock))
      && |Uncovered(s0.alerts, DataOf(s0.jobs), s0.clock)| <= |s.alerts| - |s0.alerts| <= |s0.jobs|
  {
    AlwaysInBatch(s0, steps, |steps|);
    EndedBatch(s0, At(s0, steps, |steps|));
  }

  /** In particular for a batch made of these jobs. */
  lemma BatchAlerts(alerts: seq<Alert>, datas: seq<AlertData>, clock: int, steps: seq<Step>)
    requires Interleaving(Batch(alerts, datas, clock), steps)
    requires AllEnded(At(Batch(alerts, datas, clock), steps, |steps|))
    requires forall k | 0 <= k < |steps| :: Undisturbing(steps[k])
    ensures forall d | d in datas :: Alerted(At(Batch(alerts, datas, clock), steps, |steps|).alerts, d.key, clock)
  {
    var s0 := Batch(alerts, datas, clock);
    BatchOutcome(s0, steps);
    forall d | d in datas ensures Alerted(At(s0, steps, |steps|).alerts, d.key, clock) {
      var j :| 0 <= j < |datas| && datas[j] == d;
      assert s0.jobs[j].data == d;
    }
  }

  // ----- what the alerts of a batch say -----

  /** The alert has the service, title, severity, incident and channel asked for, whatever became of its status. */
  predicate AskedFor(a: Alert, data: AlertData) {
    && a.key == data.key && a.incidentId == data.incidentId
    && a.severity == (if data.severity.Some? then data.severity.value else Warning)
    && a.channel == (if data.channel.Some? then data.channel.value else "in-app")
  }

  ghost predicate IsAskedFor(a: Alert, datas: seq<AlertData>) {
    exists d | d in datas :: AskedFor(a, d)
  }

  /** The jobs are for these data, and each alert from number n on is one that they ask for. */
  ghost predicate AddedFor(n: nat, datas: seq<AlertData>, s: System) {
    && (forall j | 0 <= j < |s.jobs| :: s.jobs[j].data in datas)
    && n <= |s.alerts| && forall k | n <= k < |s.alerts| :: IsAskedFor(s.alerts[k], datas)
  }

  lemma StatusSetKeepsAsked(alerts: seq<Alert>, id: nat, status: Status, now: int, k: nat, datas: seq<AlertData>)
    requires k < |alerts| && IsAskedFor(alerts[k], datas)
    ensures IsAskedFor(StatusSet(alerts, id, status, now)[k], datas)
  {
    var d :| d in datas && AskedFor(alerts[k], d);
    assert AskedFor(StatusSet(alerts, id, status, now)[k], d);
  }

  lemma StepAddsFor(n: nat, datas: seq<AlertData>, s: System, step: Step)
    requires AddedFor(n, datas, s)
    ensures AddedFor(n, datas, Next(s, step))
  {
    if step.SetStatus? {
      forall k | n <= k < |s.alerts| ensures IsAskedFor(Next(s, step).alerts[k], datas) {
        StatusSetKeepsAsked(s.alerts, step.id, step.status, s.clock, k, datas);
      }
    } else if step.Insert? && Enabled(s, step) {
      assert AskedFor(NewAlert(s.jobs[step.j].data, |s.alerts|, s.clock), s.jobs[step.j].data);
    }
  }

  lemma {:induction false} AlwaysAddsFor(n: nat, datas: seq<AlertData>, s: System, steps: seq<Step>, i: nat)
    requires i <= |steps| && AddedFor(n, datas, s)
    ensures AddedFor(n, datas, At(s, steps, i))
    decreases i
  {
    if i > 0 {
      AlwaysAddsFor(n, datas, s, steps, i - 1);
      StepAddsFor(n, datas, At(s, steps, i - 1), steps[i - 1]);
    }
  }

  /** In every interleaving, whatever fails and whatever is updated, no alert is added that no job asked for. */
  lemma BatchAddsForJobs(alerts: seq<Alert>, datas: seq<AlertData>, clock: int, steps: seq<Step>, i: nat)
    requires i <= |steps|
    ensures var after := At(Batch(alerts, datas, clock), steps, i).alerts;
      |alerts| <= |after| && forall k | |alerts| <= k < |after| :: IsAskedFor(after[k], datas)
  {
    AlwaysAddsFor(|alerts|, datas, Batch(alerts, datas, clock), steps, i);
  }

  /** No two of these jobs are for the same service and title. */
  predicate DistinctData(datas: seq<AlertData>) {
    forall j, k | 0 <= j < k < |datas| :: datas[j].key != datas[k].key
  }

  /** A batch cannot race with itself, whatever the schedule, if and only if its keys are distinct. */
  lemma BatchRacesIff(alerts: seq<Alert>, datas: seq<AlertData>, clock: int)
    requires Spaced(alerts, clock) && forall d | d in datas :: d.FromProducer()
    ensures AlwaysSpaced(Batch(alerts, datas, clock)) <==> DistinctData(datas)
  {
    var s := Batch(alerts, datas, clock);
    BatchIsSpacedIff(s);
    assert DistinctKeys(s.jobs) <==> DistinctData(datas);
  }

  lemma DistinctConcat(a: seq<AlertData>, b: seq<AlertData>)
    ensures DistinctData(a + b) <==>
      DistinctData(a) && DistinctData(b) && forall x, y | x in a && y in b :: x.key != y.key
  {
    var c := a + b;
    if DistinctData(c) {
      forall x, y | x in a && y in b ensures x.key != y.key {
        var i :| 0 <= i < |a| && a[i] == x;
        var j :| 0 <= j < |b| && b[j] == y;
        assert c[i] == x && c[|a| + j] == y;
      }
      forall j, k | 0 <= j < k < |b| ensures b[j].key != b[k].key { assert c[|a| + j].key != c[|a| + k].key; }
      forall j, k | 0 <= j < k < |a| ensures a[j].key != a[k].key { assert c[j].key != c[k].key; }
    }
  }

  // ----- one job after another, at one reading of the clock -----

  function CreateAll(alerts: seq<Alert>, datas: seq<AlertData>, now: int): seq<Alert>
    decreases |datas|
  {
    if datas == [] then alerts else CreateAll(Created(alerts, datas[0], now, now), datas[1..], now)
  }

  lemma UncoveredAfterFirst(alerts: seq<Alert>, datas: seq<AlertData>, now: int)
    requires datas != [] && datas[0].FromProducer()
    ensures var after := Created(alerts, datas[0], now, now);
      var rest := Uncovered(after, datas[1..], now);
      if after == alerts then Uncovered(alerts, datas, now) == rest
      else |after| == |alerts| + 1 && datas[0].key !in rest && Uncovered(alerts, datas, now) == rest + {datas[0].key}
  {
    var after := Created(alerts, datas[0], now, now);
    assert datas == [datas[0]] + datas[1..];
    if after != alerts {
      var a := NewAlert(datas[0], |alerts|, now);
      assert after == alerts + [a] && IsDuplicate(a, datas[0].key, now - ALERT_DEDUPE_WINDOW_MS);
      assert a in after;
      forall key ensures Alerted(after, key, now) <==> key == datas[0].key || Alerted(alerts, key, now) {
        assert forall b | b in alerts :: b in after;
      }
    }
  }

  /** Running the jobs one by one at a single clock reading inserts exactly one alert for each uncovered key. */
  lemma {:induction false} SerialBatchIsOptimal(alerts: seq<Alert>, datas: seq<AlertData>, now: int)
    requires forall d | d in datas :: d.FromProducer()
    ensures |CreateAll(alerts, datas, now)| == |alerts| + |Uncovered(alerts, datas, now)|
    ensures alerts <= CreateAll(alerts, datas, now)
    decreases |datas|
  {
    if datas == [] {
      assert Uncovered(alerts, datas, now) == {};
    } else {
      UncoveredAfterFirst(alerts, datas, now);
      SerialBatchIsOptimal(Created(alerts, datas[0], now, now), datas[1..], now);
    }
  }

  lemma CreatedAlerts(alerts: seq<Alert>, data: AlertData, now: int)
    requires data.FromProducer()
    ensures Alerted(Created(alerts, data, now, now), data.key, now)
    ensures forall key | Alerted(alerts, key, now) :: Alerted(Created(alerts, data, now, now), key, now)
  {
    var after := Created(alerts, data, now, now);
    assert forall a | a in alerts :: a in after;
    if after != alerts { assert after[|alerts|] in after; }
  }

  /** After it every key of the batch is alerted. */
  lemma {:induction false} SerialBatchAlerts(alerts: seq<Alert>, datas: seq<AlertData>, now: int)
    requires forall d | d in datas :: d.FromProducer()
    ensures forall d | d in datas :: Alerted(CreateAll(alerts, datas, now), d.key, now)
    ensures forall key | Alerted(alerts, key, now) :: Alerted(CreateAll(alerts, datas, now), key, now)
    decreases |datas|
  {
    if datas != [] {
      CreatedAlerts(alerts, datas[0], now);
      SerialBatchAlerts(Created(alerts, datas[0], now, now), datas[1..], now);
    }
  }

  lemma OrderDoesNotMatter(alerts: seq<Alert>, datas: seq<AlertData>, shuffled: seq<AlertData>, now: int)
    requires multiset(datas) == multiset(shuffled)
    requires forall d | d in datas :: d.FromProducer()
    ensures |CreateAll(alerts, datas, now)| == |CreateAll(alerts, shuffled, now)|
  {
    assert forall d :: d in datas <==> d in multiset(datas);
    assert forall d :: d in shuffled <==> d in multiset(shuffled);
    assert Uncovered(alerts, datas, now) == Uncovered(alerts, shuffled, now);
    SerialBatchIsOptimal(alerts, datas, now);
    SerialBatchIsOptimal(alerts, shuffled, now);
  }

  /** The state after a job's three steps, run without interruption. */
  function JobAlone(s: System, j: nat): System
    requires Enabled(s, Start(j))
  {
    var looked := Next(Next(s, Start(j)), Lookup(j));
    if looked.jobs[j].phase.Missed? then Next(looked, Insert(j)) else looked
  }

  /** They do what `create` does as one step, and touch no other job. */
  lemma UninterruptedJobIsCreate(s: System, j: nat)
    requires Enabled(s, Start(j))
    ensures
      var done := JobAlone(s, j);
      && done.alerts == Created(s.alerts, s.jobs[j].data, s.clock, s.clock)
      && done.clock == s.clock && |done.jobs| == |s.jobs| && Done(done.jobs[j].phase)
      && (forall k | 0 <= k < |s.jobs| && k != j :: done.jobs[k] == s.jobs[k])
  {
    var started := Next(s, Start(j));
    assert Enabled(started, Lookup(j));
  }

  // ----- a schedule that runs one job after another -----

  lemma {:induction false} CreateAllAppend(alerts: seq<Alert>, datas: seq<AlertData>, d: AlertData, now: int)
    ensures CreateAll(alerts, datas + [d], now) == Created(CreateAll(alerts, datas, now), d, now, now)
    decreases |datas|
  {
    if datas == [] {
      assert [d][1..] == [];
    } else {
      assert (datas + [d])[1..] == datas[1..] + [d];
      CreateAllAppend(Created(alerts, datas[0], now, now), datas[1..], d, now);
    }
  }

  /** Every job has read the clock. */
  predicate NoneWaiting(s: System) {
    forall j | 0 <= j < |s.jobs| :: !s.jobs[j].phase.Waiting?
  }

  /** A step at one reading of the clock, where all jobs start before any of them looks up, as they do in one loop. */
  predicate Quick(s: System, step: Step) {
    Enabled(s, step) && Undisturbing(step) && !step.Tick? && (step.Lookup? ==> NoneWaiting(s))
  }

  function SinceOf(s: System): int {
    s.clock - ALERT_DEDUPE_WINDOW_MS
  }

  /** The first `started` jobs have started, and of those the first `ended` have ended, one after another. */
  predicate SerialState(s: System, t: System, started: nat, ended: nat) {
    && ended <= started <= |s.jobs| && t.clock == s.clock && |t.jobs| == |s.jobs|
    && (forall j | 0 <= j < |s.jobs| :: t.jobs[j].data == s.jobs[j].data)
    && (forall j | 0 <= j < ended :: Done(t.jobs[j].phase))
    && (forall j | ended <= j < started :: t.jobs[j].phase == Started(SinceOf(s)))
    && (forall j | started <= j < |s.jobs| :: t.jobs[j].phase.Waiting?)
    && t.alerts == CreateAll(s.alerts, DataOf(s.jobs)[..ended], s.clock)
  }

  function StartPlan(t: System, i: nat): seq<Step> {
    [Start(i)]
  }

  lemma StartLeadsOn(s: System, t: System, i: nat)
    requires SerialState(s, t, i, 0) && i < |s.jobs|
    ensures Allowed(Next, Quick, t, StartPlan(t, i))
    ensures SerialState(s, After(Next, t, StartPlan(t, i), |StartPlan(t, i)|), i + 1, 0)
  {
    assert After(Next, t, StartPlan(t, i), 0) == t;
    assert After(Next, t, StartPlan(t, i), 1) == Next(t, Start(i));
  }

  /** All jobs can be started first. */
  lemma StartAll(s: System) returns (steps: seq<Step>)
    requires Initial(s)
    ensures Allowed(Next, Quick, s, steps) && SerialState(s, After(Next, s, steps, |steps|), |s.jobs|, 0)
  {
    var n := |s.jobs|;
    var good := (t: System, i: nat) => SerialState(s, t, i, 0);
    assert DataOf(s.jobs)[..0] == [];
    forall t: System, i: nat | i < n && good(t, i)
      ensures Allowed(Next, Quick, t, StartPlan(t, i))
      ensures good(After(Next, t, StartPlan(t, i), |StartPlan(t, i)|), i + 1)
    {
      StartLeadsOn(s, t, i);
    }
    steps := Chain(Next, Quick, good, StartPlan, s, n);
  }

  /** The steps of one started job, run without interruption. */
  function FinishPlan(t: System, j: nat): seq<Step> {
    if !Enabled(t, Lookup(j)) then []
    else if Next(t, Lookup(j)).jobs[j].phase.Missed? then [Lookup(j), Insert(j)]
    else [Lookup(j)]
  }

  function Finished(t: System, j: nat): System
    requires Enabled(t, Lookup(j))
  {
    var looked := Next(t, Lookup(j));
    if looked.jobs[j].phase.Missed? then Next(looked, Insert(j)) else looked
  }

  lemma FinishWorks(t: System, j: nat)
    requires Enabled(t, Lookup(j)) && NoneWaiting(t)
    ensures Allowed(Next, Quick, t, FinishPlan(t, j))
    ensures After(Next, t, FinishPlan(t, j), |FinishPlan(t, j)|) == Finished(t, j)
  {
    var plan := FinishPlan(t, j);
    assert After(Next, t, plan, 1) == Next(t, Lookup(j));
    forall k: nat | k < |plan| ensures Quick(After(Next, t, plan, k), plan[k]) {
      assert k == 0 || k == 1;
    }
  }

  lemma FinishIsCreate(t: System, j: nat)
    requires Enabled(t, Lookup(j)) && t.jobs[j].phase == Started(SinceOf(t))
    ensures var done := Finished(t, j);
      && done.alerts == Created(t.alerts, t.jobs[j].data, t.clock, t.clock)
      && done.clock == t.clock && |done.jobs| == |t.jobs| && Done(done.jobs[j].phase)
      && done.jobs[j].data == t.jobs[j].data
      && (forall k | 0 <= k < |t.jobs| && k != j :: done.jobs[k] == t.jobs[k])
  {
  }

  lemma FinishLeadsOn(s: System, t: System, j: nat)
    requires SerialState(s, t, |s.jobs|, j) && j < |s.jobs|
    ensures Allowed(Next, Quick, t, FinishPlan(t, j))
    ensures SerialState(s, After(Next, t, FinishPlan(t, j), |FinishPlan(t, j)|), |s.jobs|, j + 1)
  {
    FinishWorks(t, j);
    FinishIsCreate(t, j);
    CreateAllAppend(s.alerts, DataOf(s.jobs)[..j], s.jobs[j].data, s.clock);
    assert DataOf(s.jobs)[..j + 1] == DataOf(s.jobs)[..j] + [s.jobs[j].data];
  }

  lemma FinishAll(s: System, t: System) returns (steps: seq<Step>)
    requires SerialState(s, t, |s.jobs|, 0)
    ensures Allowed(Next, Quick, t, steps) && SerialState(s, After(Next, t, steps, |steps|), |s.jobs|, |s.jobs|)
  {
    var n := |s.jobs|;
    var good := (u: System, i: nat) => SerialState(s, u, n, i);
    forall u: System, i: nat | i < n && good(u, i)
      ensures Allowed(Next, Quick, u, FinishPlan(u, i))
      ensures good(After(Next, u, FinishPlan(u, i), |FinishPlan(u, i)|), i + 1)
    {
      FinishLeadsOn(s, u, i);
    }
    steps := Chain(Next, Quick, good, FinishPlan, t, n);
  }

  lemma QuickIsInterleaving(s: System, steps: seq<Step>)
    requires Initial(s) && Allowed(Next, Quick, s, steps)
    ensures Interleaving(s, steps) && forall k | 0 <= k < |steps| :: Undisturbing(steps[k])
  {
    forall k: nat | k < |steps| ensures Enabled(After(Next, s, steps, k), steps[k]) && Undisturbing(steps[k]) {
      assert Quick(After(Next, s, steps, k), steps[k]);
    }
  }

  /**
    Starting all jobs and then finishing them one by one, at one reading of the clock, is one of the
    schedules of a batch, and it inserts exactly one alert for each uncovered key: the lower bound of
    every schedule is met.
   */
  lemma SerialIsASchedule(s: System) returns (steps: seq<Step>)
    requires Initial(s)
    ensures Interleaving(s, steps) && Allowed(Next, Quick, s, steps) && AllEnded(At(s, steps, |steps|))
    ensures forall k | 0 <= k < |steps| :: Undisturbing(steps[k])
    ensures At(s, steps, |steps|).alerts == CreateAll(s.alerts, DataOf(s.jobs), s.clock)
    ensures |At(s, steps, |steps|).alerts| == |s.alerts| + |Uncovered(s.alerts, DataOf(s.jobs), s.clock)|
  {
    var starts := StartAll(s);
    var rest := FinishAll(s, After(Next, s, starts, |starts|));
    Prolong(Next, Quick, s, starts, rest);
    steps := starts + rest;
    QuickIsInterleaving(s, steps);
    assert DataOf(s.jobs)[..|s.jobs|] == DataOf(s.jobs);
    SerialBatchIsOptimal(s.alerts, DataOf(s.jobs), s.clock);
  }

  // ----- races of jobs that start at once -----

  /** All jobs start at this time, before any of them looks up, and nobody changes a status. */
  predicate Prompt(clock: int, s: System, step: Step) {
    && (step.Start? ==> s.clock == clock) && (step.Lookup? ==> NoneWaiting(s)) && !step.SetStatus?
  }

  function PromptFrom(clock: int): (System, Step) -> bool {
    (s: System, step: Step) => Prompt(clock, s, step)
  }

  ghost predicate PromptInterleaving(s: System, steps: seq<Step>) {
    Interleaving(s, steps) && Allowed(Next, PromptFrom(s.clock), s, steps)
  }

  /** The alerts stay separated in every interleaving that starts the jobs at once. */
  ghost predicate AlwaysSpacedPromptly(s: System) {
    forall steps: seq<Step>, i: nat | i <= |steps| && PromptInterleaving(s, steps) ::
      Spaced(At(s, steps, i).alerts, At(s, steps, i).clock)
  }

  /** Jobs that share a key find it covered. */
  ghost predicate SharedAreCovered(s: System) {
    forall j, k | 0 <= j < k < |s.jobs| && s.jobs[j].data.key == s.jobs[k].data.key ::
      Alerted(s.alerts, s.jobs[j].data.key, s.clock)
  }

  /** What a job knows: its window begins with the batch's, and it has missed only on an uncovered key. */
  ghost predicate Knows(s0: System, job: Job) {
    match job.phase
    case Started(since) => since == SinceOf(s0)
    case Missed(since) => !Alerted(s0.alerts, job.data.key, s0.clock)
    case _ => true
  }

  ghost predicate PromptState(s0: System, t: System) {
    && Guarded(t) && s0.alerts <= t.alerts && |t.jobs| == |s0.jobs|
    && (forall j | 0 <= j < |t.jobs| :: t.jobs[j].data == s0.jobs[j].data)
    && (forall j | 0 <= j < |t.jobs| :: Knows(s0, t.jobs[j]))
  }

  lemma MissIsUncovered(s0: System, t: System, j: nat)
    requires PromptState(s0, t) && Enabled(t, Lookup(j))
    requires FindDuplicate(t.alerts, t.jobs[j].data.key, t.jobs[j].phase.since).None?
    ensures !Alerted(s0.alerts, t.jobs[j].data.key, s0.clock)
  {
    assert Knows(s0, t.jobs[j]);
    forall a | a in s0.alerts ensures !IsDuplicate(a, t.jobs[j].data.key, SinceOf(s0)) {
      assert a in t.alerts;
    }
  }

  lemma PromptLookup(s0: System, t: System, j: nat)
    requires PromptState(s0, t) && SharedAreCovered(s0) && Enabled(t, Lookup(j))
    ensures PromptState(s0, Next(t, Lookup(j)))
  {
    if FindDuplicate(t.alerts, t.jobs[j].data.key, t.jobs[j].phase.since).None? {
      MissIsUncovered(s0, t, j);
      StepKeepsGuarded(t, Lookup(j));
    } else {
      FoundKeepsGuarded(t, j);
    }
  }

  lemma FoundKeepsGuarded(t: System, j: nat)
    requires Guarded(t) && Enabled(t, Lookup(j))
    requires FindDuplicate(t.alerts, t.jobs[j].data.key, t.jobs[j].phase.since).Some?
    ensures Guarded(Next(t, Lookup(j)))
  {
    StepKeepsWellTimed(t, Lookup(j));
  }

  lemma PromptStep(s0: System, t: System, step: Step)
    requires PromptState(s0, t) && SharedAreCovered(s0) && Enabled(t, step) && Prompt(s0.clock, t, step)
    ensures PromptState(s0, Next(t, step))
  {
    if step.Lookup? {
      PromptLookup(s0, t, step.j);
    } else {
      StepKeepsGuarded(t, step);
    }
  }

  lemma CoveredRunsAreSpaced(s: System, steps: seq<Step>, i: nat)
    requires Initial(s) && Spaced(s.alerts, s.clock) && SharedAreCovered(s) && i <= |steps|
    requires PromptInterleaving(s, steps)
    ensures PromptState(s, At(s, steps, i))
  {
    var inv := (t: System) => PromptState(s, t);
    var ok := (t: System, step: Step) => Enabled(t, step) && Prompt(s.clock, t, step);
    forall t: System, step: Step | inv(t) && ok(t, step) ensures inv(Next(t, step)) { PromptStep(s, t, step); }
    forall k: nat | k < |steps| ensures ok(After(Next, s, steps, k), steps[k]) {
      assert Enabled(After(Next, s, steps, k), steps[k]) && PromptFrom(s.clock)(After(Next, s, steps, k), steps[k]);
    }
    Always(Next, inv, ok, s, steps, i);
  }

  lemma QuickIsPrompt(s: System, steps: seq<Step>)
    requires Allowed(Next, Quick, s, steps)
    ensures Allowed(Next, PromptFrom(s.clock), s, steps)
  {
    var inv := (t: System) => t.clock == s.clock;
    forall k: nat | k < |steps| ensures PromptFrom(s.clock)(After(Next, s, steps, k), steps[k]) {
      Always(Next, inv, Quick, s, steps, k);
      assert Quick(After(Next, s, steps, k), steps[k]);
    }
  }

  function RacePlan(j: nat, k: nat): seq<Step> {
    [Lookup(j), Lookup(k), Insert(j), Insert(k)]
  }

  lemma FourSteps<S, R>(next: (S, R) -> S, s: S, steps: seq<R>)
    requires |steps| == 4
    ensures After(next, s, steps, 0) == s && After(next, s, steps, 1) == next(s, steps[0])
    ensures After(next, s, steps, 2) == next(next(s, steps[0]), steps[1])
    ensures After(next, s, steps, 3) == next(After(next, s, steps, 2), steps[2])
    ensures After(next, s, steps, 4) == next(next(After(next, s, steps, 2), steps[2]), steps[3])
  {
  }

  /** Once all jobs have started, two with a shared uncovered key both miss and both insert. */
  lemma RaceFromStarted(s: System, t: System, j: nat, k: nat)
    requires SerialState(s, t, |s.jobs|, 0) && j < k < |s.jobs| && s.jobs[j].data.key == s.jobs[k].data.key
    requires s.jobs[j].data.FromProducer() && s.jobs[k].data.FromProducer()
    requires !Alerted(s.alerts, s.jobs[j].data.key, s.clock)
    ensures Allowed(Next, Quick, t, RacePlan(j, k))
    ensures var after := After(Next, t, RacePlan(j, k), |RacePlan(j, k)|); !Spaced(after.alerts, after.clock)
  {
    var n := |t.alerts|;
    assert DataOf(s.jobs)[..0] == [];
    BothMiss(t, j, k, SinceOf(s));
    var missed := InPhases(t, j, k, Missed(SinceOf(s)));
    BothInsert(missed, j, k);
    FourSteps(Next, t, RacePlan(j, k));
    var after := After(Next, t, RacePlan(j, k), 4);
    assert after.alerts == t.alerts + [NewAlert(t.jobs[j].data, n, t.clock), NewAlert(t.jobs[k].data, n + 1, t.clock)];
    assert BothActive(after.alerts[n], after.alerts[n + 1]);
    RaceIsQuick(t, j, k);
  }

  lemma RaceIsQuick(t: System, j: nat, k: nat)
    requires NoneWaiting(t) && j < k < |t.jobs| && Enabled(t, Lookup(j)) && Enabled(Next(t, Lookup(j)), Lookup(k))
    requires Enabled(Next(Next(t, Lookup(j)), Lookup(k)), Insert(j))
    requires Enabled(Next(Next(Next(t, Lookup(j)), Lookup(k)), Insert(j)), Insert(k))
    ensures Allowed(Next, Quick, t, RacePlan(j, k))
  {
    FourSteps(Next, t, RacePlan(j, k));
    forall i: nat | i < 4 ensures Quick(After(Next, t, RacePlan(j, k), i), RacePlan(j, k)[i]) {
      assert i == 0 || i == 1 || i == 2 || i == 3;
    }
  }

  lemma UncoveredBreaks(s: System, j: nat, k: nat)
    requires Initial(s) && j < k < |s.jobs| && s.jobs[j].data.key == s.jobs[k].data.key
    requires !Alerted(s.alerts, s.jobs[j].data.key, s.clock)
    ensures !AlwaysSpacedPromptly(s)
  {
    var starts := StartAll(s);
    var t := After(Next, s, starts, |starts|);
    RaceFromStarted(s, t, j, k);
    Prolong(Next, Quick, s, starts, RacePlan(j, k));
    var steps := starts + RacePlan(j, k);
    QuickIsInterleaving(s, steps);
    QuickIsPrompt(s, steps);
    assert PromptInterleaving(s, steps);
    assert !Spaced(At(s, steps, |steps|).alerts, At(s, steps, |steps|).clock);
  }

  /**
    Jobs that all start at once, on separated alerts, keep them separated in every interleaving without
    status changes if and only if every key that two of them share is covered when they start.
   */
  lemma PromptBatchIsSpacedIff(s: System)
    requires Initial(s) && Spaced(s.alerts, s.clock)
    ensures AlwaysSpacedPromptly(s) <==> SharedAreCovered(s)
  {
    if SharedAreCovered(s) {
      forall steps: seq<Step>, i: nat | i <= |steps| && PromptInterleaving(s, steps)
        ensures Spaced(At(s, steps, i).alerts, At(s, steps, i).clock)
      {
        CoveredRunsAreSpaced(s, steps, i);
      }
    } else {
      var j, k :| 0 <= j < k < |s.jobs| && s.jobs[j].data.key == s.jobs[k].data.key
        && !Alerted(s.alerts, s.jobs[j].data.key, s.clock);
      UncoveredBreaks(s, j, k);
    }
  }

  // ----- how long an alert keeps its key covered -----

  lemma {:induction false} CreateAllAdds(alerts: seq<Alert>, datas: seq<AlertData>, now: int)
    requires forall d | d in datas :: d.FromProducer()
    ensures alerts <= CreateAll(alerts, datas, now)
    ensures forall a | a in CreateAll(alerts, datas, now) :: a in alerts || a.triggeredAt == now
    decreases |datas|
  {
    if datas != [] {
      var first := Created(alerts, datas[0], now, now);
      CreateAllAdds(first, datas[1..], now);
      assert datas[0] in datas;
      forall a | a in first ensures a in alerts || a.triggeredAt == now {
        assert first == alerts || first == alerts + [NewAlert(datas[0], |alerts|, now)];
      }
    }
  }

  lemma DuplicateIsRaised(alerts: seq<Alert>, datas: seq<AlertData>, now: int, since: int, key: Key, a: Alert)
    requires forall d | d in datas :: d.FromProducer()
    requires !Alerted(alerts, key, now) && now - ALERT_DEDUPE_WINDOW_MS <= since
    requires a in CreateAll(alerts, datas, now) && IsDuplicate(a, key, since)
    ensures a.triggeredAt == now
  {
    CreateAllAdds(alerts, datas, now);
    assert a in alerts ==> !IsDuplicate(a, key, now - ALERT_DEDUPE_WINDOW_MS);
  }

  /** A key that a batch raised stays covered for exactly 15 minutes, as long as nobody touches the alert. */
  lemma RaisedKeyLasts(alerts: seq<Alert>, datas: seq<AlertData>, now: int, later: int, d: AlertData)
    requires forall d | d in datas :: d.FromProducer()
    requires d in datas && !Alerted(alerts, d.key, now) && now <= later
    ensures Alerted(CreateAll(alerts, datas, now), d.key, later) <==> later - now <= 15 * 60_000
  {
    var after := CreateAll(alerts, datas, now);
    SerialBatchAlerts(alerts, datas, now);
    var a :| a in after && IsDuplicate(a, d.key, now - ALERT_DEDUPE_WINDOW_MS);
    DuplicateIsRaised(alerts, datas, now, now - ALERT_DEDUPE_WINDOW_MS, d.key, a);
    if later <= now + ALERT_DEDUPE_WINDOW_MS {
      assert IsDuplicate(a, d.key, later - ALERT_DEDUPE_WINDOW_MS);
    }
    if Alerted(after, d.key, later) {
      var b :| b in after && IsDuplicate(b, d.key, later - ALERT_DEDUPE_WINDOW_MS);
      DuplicateIsRaised(alerts, datas, now, later - ALERT_DEDUPE_WINDOW_MS, d.key, b);
    }
  }

  /** A batch run one by one stores nothing if and only if each of its keys is covered. */
  lemma SilentIffCovered(alerts: seq<Alert>, datas: seq<AlertData>, now: int)
    requires forall d | d in datas :: d.FromProducer()
    ensures CreateAll(alerts, datas, now) == alerts <==> forall d | d in datas :: Alerted(alerts, d.key, now)
  {
    SerialBatchIsOptimal(alerts, datas, now);
    var uncovered := Uncovered(alerts, datas, now);
    if forall d | d in datas :: Alerted(alerts, d.key, now) {
      assert uncovered == {};
    } else {
      var d :| d in datas && !Alerted(alerts, d.key, now);
      assert d.key in uncovered;
    }
  }
}
