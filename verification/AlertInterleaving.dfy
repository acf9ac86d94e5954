/**
  Many alert creations at once: telemetry and incidents start their jobs together and await them all
  (src/telemetry/telemetry.service.ts:96-98, src/incidents/incidents.service.ts:102-113).

  A job reads the clock, looks for a duplicate, and inserts when it found none, reading the clock
  again. Steps of different jobs, status updates and the clock interleave freely.
 */
module AlertInterleaving {
  import opened AlertRuns
  import opened AlertThresholds
  import opened Alerts
  import opened Common
  import opened Runs

  datatype Phase =
    | Waiting
    | Started(since: int)    // the start of the window has been computed
    | Missed(since: int)     // the lookup found no duplicate
    | Answered(id: nat)      // the lookup found this alert
    | Inserted(id: nat)
    | Failed                 // the store threw, and the error was caught

  datatype Job = Job(data: AlertData, phase: Phase)

  datatype System = System(clock: int, alerts: seq<Alert>, jobs: seq<Job>)

  datatype Step =
    | Tick(ms: nat)
    | Start(j: nat)
    | Lookup(j: nat)
    | Insert(j: nat)
    | Fail(j: nat)
    | SetStatus(id: nat, status: Status)

  predicate Enabled(s: System, step: Step) {
    match step
    case Tick(_) => true
    case Start(j) => j < |s.jobs| && s.jobs[j].phase.Waiting?
    case Lookup(j) => j < |s.jobs| && s.jobs[j].phase.Started?
    case Insert(j) => j < |s.jobs| && s.jobs[j].phase.Missed?
    case Fail(j) => j < |s.jobs| && (s.jobs[j].phase.Started? || s.jobs[j].phase.Missed?)
    case SetStatus(_, _) => true
  }

  function InPhase(s: System, j: nat, phase: Phase): System
    requires j < |s.jobs|
  {
    s.(jobs := s.jobs[j := s.jobs[j].(phase := phase)])
  }

  function Next(s: System, step: Step): System {
    if !Enabled(s, step) then s else
    match step
    case Tick(ms) => s.(clock := s.clock + ms)
    case Start(j) => InPhase(s, j, Started(s.clock - ALERT_DEDUPE_WINDOW_MS))
    case Lookup(j) =>
      var since := s.jobs[j].phase.since;
      (match FindDuplicate(s.alerts, s.jobs[j].data.key, since)
       case Some(a) => InPhase(s, j, Answered(a.id))
       case None => InPhase(s, j, Missed(since)))
    case Insert(j) =>
      InPhase(s, j, Inserted(|s.alerts|)).(
        alerts := s.alerts + [NewAlert(s.jobs[j].data, |s.alerts|, s.clock)])
    case Fail(j) => InPhase(s, j, Failed)
    case SetStatus(id, status) => s.(alerts := StatusSet(s.alerts, id, status, s.clock))
  }

  /** The state after the first i steps. */
  function At(s: System, steps: seq<Step>, i: nat): System
    requires i <= |steps|
  {
    After(Next, s, steps, i)
  }

  ghost predicate Interleaving(s: System, steps: seq<Step>) {
    Initial(s) && Allowed(Next, Enabled, s, steps)
  }

  /** A batch of new jobs on a numbered store. */
  predicate Initial(s: System) {
    Numbered(s.alerts) && forall j | 0 <= j < |s.jobs| :: s.jobs[j].phase.Waiting? && s.jobs[j].data.FromProducer()
  }

  // ----- what no step changes -----

  /** Alerts are only added, and an added alert keeps its key and its time; the clock never goes back. */
  ghost predicate Extends(s: System, t: System) {
    && s.clock <= t.clock && |s.alerts| <= |t.alerts| && |s.jobs| == |t.jobs|
    && (forall i | 0 <= i < |s.alerts| ::
          t.alerts[i].key == s.alerts[i].key && t.alerts[i].triggeredAt == s.alerts[i].triggeredAt
          && t.alerts[i].id == s.alerts[i].id)
    && (forall j | 0 <= j < |s.jobs| :: t.jobs[j].data == s.jobs[j].data)
  }

  lemma StepExtends(s: System, step: Step)
    ensures Extends(s, Next(s, step))
  {
  }

  lemma ExtendsTransitive(s: System, t: System, u: System)
    requires Extends(s, t) && Extends(t, u)
    ensures Extends(s, u)
  {
  }

  lemma {:induction false} LaterExtends(s: System, steps: seq<Step>, l: nat, m: nat)
    requires l <= m <= |steps|
    ensures Extends(At(s, steps, l), At(s, steps, m))
    decreases m
  {
    if l < m {
      LaterExtends(s, steps, l, m - 1);
      StepExtends(At(s, steps, m - 1), steps[m - 1]);
      ExtendsTransitive(At(s, steps, l), At(s, steps, m - 1), At(s, steps, m));
    }
  }

  /** A window that has been computed starts at least its length before the present. */
  ghost predicate WellTimed(s: System) {
    && Numbered(s.alerts)
    && forall j | 0 <= j < |s.jobs| ::
      s.jobs[j].data.FromProducer() && (s.jobs[j].phase.Started? || s.jobs[j].phase.Missed? ==>
        s.jobs[j].phase.since <= s.clock - ALERT_DEDUPE_WINDOW_MS)
  }

  lemma StepKeepsWellTimed(s: System, step: Step)
    requires WellTimed(s)
    ensures WellTimed(Next(s, step))
  {
    var t := Next(s, step);
    assert s.clock <= t.clock;
    forall j | 0 <= j < |t.jobs| && t.jobs[j] != s.jobs[j]
      ensures t.jobs[j].data == s.jobs[j].data
      ensures t.jobs[j].phase.Started? || t.jobs[j].phase.Missed? ==>
        t.jobs[j].phase.since <= t.clock - ALERT_DEDUPE_WINDOW_MS
    {
    }
  }

  lemma {:induction false} AlwaysWellTimed(s: System, steps: seq<Step>, i: nat)
    requires Interleaving(s, steps) && i <= |steps|
    ensures WellTimed(At(s, steps, i))
    decreases i
  {
    if i > 0 {
      AlwaysWellTimed(s, steps, i - 1);
      StepKeepsWellTimed(At(s, steps, i - 1), steps[i - 1]);
    }
  }

  predicate Settled(p: Phase) {
    p.Inserted? || p.Failed?
  }

  lemma PhaseStep(s: System, step: Step, j: nat)
    requires j < |s.jobs| && !s.jobs[j].phase.Waiting? && !s.jobs[j].phase.Started?
    ensures |Next(s, step).jobs| == |s.jobs|
    ensures var p := Next(s, step).jobs[j].phase;
      p == s.jobs[j].phase || (s.jobs[j].phase.Missed? && Settled(p))
  {
  }

  /** Once a lookup has been made, a job is only ever where the lookup left it, or done. */
  lemma {:induction false} PhaseAfterLookup(s: System, steps: seq<Step>, j: nat, l: nat, m: nat)
    requires l <= m <= |steps| && j < |At(s, steps, l).jobs|
    requires At(s, steps, l).jobs[j].phase.Missed? || At(s, steps, l).jobs[j].phase.Answered?
    ensures j < |At(s, steps, m).jobs|
    ensures var p := At(s, steps, m).jobs[j].phase; p == At(s, steps, l).jobs[j].phase || Settled(p)
    decreases m
  {
    if l < m {
      PhaseAfterLookup(s, steps, j, l, m - 1);
      PhaseStep(At(s, steps, m - 1), steps[m - 1], j);
    }
  }

  // ----- duplicates in a concurrent run -----

  /** A lookup that misses leaves only alerts that are out of the window for good. */
  lemma MissMeansOld(s: System, j: nat)
    requires WellTimed(s) && Enabled(s, Lookup(j)) && Next(s, Lookup(j)).jobs[j].phase.Missed?
    ensures forall i | 0 <= i < |s.alerts| && s.alerts[i].key == s.jobs[j].data.key && s.alerts[i].status.Active? ::
      s.alerts[i].triggeredAt + ALERT_DEDUPE_WINDOW_MS < s.clock
  {
    var since := s.jobs[j].phase.since;
    forall i | 0 <= i < |s.alerts| && s.alerts[i].key == s.jobs[j].data.key && s.alerts[i].status.Active?
      ensures s.alerts[i].triggeredAt < since
    {
      assert s.alerts[i] in s.alerts;
      assert !IsDuplicate(s.alerts[i], s.jobs[j].data.key, since);
    }
  }

  lemma LookupOutcome(s: System, j: nat)
    requires Enabled(s, Lookup(j))
    ensures |Next(s, Lookup(j)).jobs| == |s.jobs|
    ensures Next(s, Lookup(j)).jobs[j].phase.Missed? || Next(s, Lookup(j)).jobs[j].phase.Answered?
  {
  }

  lemma EnabledAt(s: System, steps: seq<Step>, i: nat)
    requires Interleaving(s, steps) && i < |steps|
    ensures Enabled(At(s, steps, i), steps[i])
  {
  }

  lemma LookupAt(s: System, steps: seq<Step>, l: nat, j: nat)
    requires l < |steps| && steps[l] == Lookup(j) && Enabled(At(s, steps, l), Lookup(j))
    ensures At(s, steps, l + 1) == Next(At(s, steps, l), Lookup(j))
    ensures j < |At(s, steps, l + 1).jobs|
    ensures At(s, steps, l + 1).jobs[j].phase.Missed? || At(s, steps, l + 1).jobs[j].phase.Answered?
  {
    LookupOutcome(At(s, steps, l), j);
  }

  /** The lookup of a job that inserts later has missed. */
  lemma InsertComesFromMiss(s: System, steps: seq<Step>, l: nat, m: nat, j: nat)
    requires l < m < |steps| && steps[l] == Lookup(j) && Enabled(At(s, steps, l), Lookup(j))
    requires Enabled(At(s, steps, m), Insert(j))
    ensures At(s, steps, l + 1) == Next(At(s, steps, l), Lookup(j))
    ensures j < |At(s, steps, l + 1).jobs| && At(s, steps, l + 1).jobs[j].phase.Missed?
  {
    LookupAt(s, steps, l, j);
    PhaseAfterLookup(s, steps, j, l + 1, m);
  }

  /**
    In every interleaving: when a job looks up at step l and inserts at step m, then every other
    alert of its key either was inserted after that lookup, or was not ACTIVE at it, or is more
    than 15 minutes older.
   */
  lemma SeparatedOrRaced(s: System, steps: seq<Step>, l: nat, m: nat, j: nat, a: nat)
    requires Interleaving(s, steps) && l < m < |steps|
    requires steps[l] == Lookup(j) && steps[m] == Insert(j)
    requires a < |At(s, steps, m).alerts| && At(s, steps, m).alerts[a].key == At(s, steps, m).jobs[j].data.key
    ensures var after := At(s, steps, m + 1).alerts;
      var b := |At(s, steps, m).alerts|;
      && |after| == b + 1 && after[b].key == after[a].key && after[b].status.Active?
      && (|| a >= |At(s, steps, l).alerts|
          || !At(s, steps, l).alerts[a].status.Active?
          || after[a].triggeredAt + ALERT_DEDUPE_WINDOW_MS < after[b].triggeredAt)
  {
    EnabledAt(s, steps, l);
    EnabledAt(s, steps, m);
    InsertComesFromMiss(s, steps, l, m, j);
    AlwaysWellTimed(s, steps, l);
    MissMeansOld(At(s, steps, l), j);
    AlwaysWellTimed(s, steps, m);
    LaterExtends(s, steps, l, m);
  }

  /** Two lookups before either insert: both jobs insert, at the same time and under the same key. */
  lemma RaceInsertsDuplicates(alerts: seq<Alert>, data: AlertData, clock: int)
    requires Numbered(alerts) && data.FromProducer()
    requires forall a | a in alerts :: !IsDuplicate(a, data.key, clock - ALERT_DEDUPE_WINDOW_MS)
    ensures
      var s := System(clock, alerts, [Job(data, Waiting), Job(data, Waiting)]);
      var steps := [Start(0), Start(1), Lookup(0), Lookup(1), Insert(0), Insert(1)];
      && Interleaving(s, steps)
      && At(s, steps, 6).alerts ==
        alerts + [NewAlert(data, |alerts|, clock), NewAlert(data, |alerts| + 1, clock)]
  {
    var since := clock - ALERT_DEDUPE_WINDOW_MS;
    var s := System(clock, alerts, [Job(data, Waiting), Job(data, Waiting)]);
    var steps := [Start(0), Start(1), Lookup(0), Lookup(1), Insert(0), Insert(1)];
    assert FindDuplicate(alerts, data.key, since).None?;
    assert At(s, steps, 1) == System(clock, alerts, [Job(data, Started(since)), Job(data, Waiting)]);
    assert At(s, steps, 2) == System(clock, alerts, [Job(data, Started(since)), Job(data, Started(since))]);
    assert At(s, steps, 3) == System(clock, alerts, [Job(data, Missed(since)), Job(data, Started(since))]);
    assert At(s, steps, 4) == System(clock, alerts, [Job(data, Missed(since)), Job(data, Missed(since))]);
    var one := alerts + [NewAlert(data, |alerts|, clock)];
    assert At(s, steps, 5) == System(clock, one, [Job(data, Inserted(|alerts|)), Job(data, Missed(since))]);
    assert At(s, steps, 6).alerts == one + [NewAlert(data, |alerts| + 1, clock)];
  }

  // ----- what rules duplicates out -----

  /** No job looks up while another job of the same key is between its lookup and its insert. */
  ghost predicate Exclusive(s: System, steps: seq<Step>) {
    forall i: nat | i < |steps| && steps[i].Lookup? :: Undisturbed(At(s, steps, i), steps[i].j)
  }

  ghost predicate Undisturbed(s: System, j: nat) {
    forall k | 0 <= k < |s.jobs| && k != j && j < |s.jobs| && s.jobs[k].data.key == s.jobs[j].data.key ::
      !s.jobs[k].phase.Missed?
  }

  /** A job that found no duplicate still has the window of its key to itself. */
  ghost predicate Guarded(s: System) {
    && WellTimed(s) && Spaced(s.alerts, s.clock)
    && (forall j, k | 0 <= j < k < |s.jobs| && s.jobs[j].phase.Missed? && s.jobs[k].phase.Missed? ::
          s.jobs[j].data.key != s.jobs[k].data.key)
    && (forall j, i | 0 <= j < |s.jobs| && s.jobs[j].phase.Missed? && 0 <= i < |s.alerts| ::
          !IsDuplicate(s.alerts[i], s.jobs[j].data.key, s.jobs[j].phase.since))
  }

  lemma InsertKeepsGuarded(s: System, j: nat)
    requires Guarded(s) && Enabled(s, Insert(j))
    ensures Guarded(Next(s, Insert(j)))
  {
    var t := Next(s, Insert(j));
    forall a, b | 0 <= a < b < |t.alerts| && BothActive(t.alerts[a], t.alerts[b])
      ensures t.alerts[a].triggeredAt + ALERT_DEDUPE_WINDOW_MS < t.alerts[b].triggeredAt
    {
      if b == |s.alerts| {
        assert !IsDuplicate(s.alerts[a], s.jobs[j].data.key, s.jobs[j].phase.since);
      } else {
        assert BothActive(s.alerts[a], s.alerts[b]);
      }
    }
  }

  lemma LookupKeepsGuarded(s: System, j: nat)
    requires Guarded(s) && Enabled(s, Lookup(j)) && Undisturbed(s, j)
    ensures Guarded(Next(s, Lookup(j)))
  {
    var t := Next(s, Lookup(j));
    StepKeepsWellTimed(s, Lookup(j));
    if t.jobs[j].phase.Missed? {
      forall i | 0 <= i < |t.alerts| ensures !IsDuplicate(t.alerts[i], t.jobs[j].data.key, t.jobs[j].phase.since) {
        assert s.alerts[i] in s.alerts;
      }
    }
  }

  /** An alert is reopened only if it is isolated, and out of the window of every job about to insert for its key. */
  predicate Gentle(s: System, step: Step) {
    step.SetStatus? && step.status.Active? && step.id < |s.alerts| ==>
      && Isolated(s.alerts, step.id)
      && (forall j | 0 <= j < |s.jobs| && s.jobs[j].phase.Missed? && s.jobs[j].data.key == s.alerts[step.id].key ::
            s.alerts[step.id].triggeredAt < s.jobs[j].phase.since)
  }

  lemma ClosingKeepsGuarded(s: System, id: nat, status: UpdateStatus)
    requires Guarded(s)
    ensures Guarded(Next(s, SetStatus(id, status)))
  {
    var t := Next(s, SetStatus(id, status));
    assert forall i | 0 <= i < |t.alerts| :: t.alerts[i] == s.alerts[i] || !t.alerts[i].status.Active?;
    forall a, b | 0 <= a < b < |t.alerts| && BothActive(t.alerts[a], t.alerts[b])
      ensures t.alerts[a].triggeredAt + ALERT_DEDUPE_WINDOW_MS < t.alerts[b].triggeredAt
    {
      assert BothActive(s.alerts[a], s.alerts[b]);
    }
  }

  /** Of all status updates, exactly the gentle ones keep the alerts separated and the jobs' windows clear. */
  lemma SetStatusKeepsGuardedIff(s: System, id: nat, status: Status)
    requires Guarded(s)
    ensures Guarded(Next(s, SetStatus(id, status))) <==> Gentle(s, SetStatus(id, status))
  {
    var t := Next(s, SetStatus(id, status));
    if !status.Active? {
      ClosingKeepsGuarded(s, id, status);
    } else if id < |s.alerts| {
      ReactivationKeepsSpacedIff(s.alerts, s.clock, id, s.clock);
      assert forall j, since | 0 <= j < |s.jobs| && s.jobs[j].phase == Missed(since) ::
        IsDuplicate(t.alerts[id], s.jobs[j].data.key, since) <==>
          s.jobs[j].data.key == s.alerts[id].key && s.alerts[id].triggeredAt >= since;
    }
  }

  ghost predicate Proper(s: System, step: Step) {
    Enabled(s, step) && Gentle(s, step) && (step.Lookup? ==> Undisturbed(s, step.j))
  }

  lemma StepKeepsGuarded(s: System, step: Step)
    requires Guarded(s) && Proper(s, step)
    ensures Guarded(Next(s, step))
  {
    match step
    case Insert(j) => InsertKeepsGuarded(s, j);
    case Lookup(j) => LookupKeepsGuarded(s, j);
    case SetStatus(id, status) => SetStatusKeepsGuardedIff(s, id, status);
    case _ => StepKeepsWellTimed(s, step);
  }

  /**
    An interleaving in which no two jobs of one key are in the gap between lookup and insert keeps
    ACTIVE alerts of one key more than 15 minutes apart, whatever else interleaves gently.
   */
  lemma ExclusiveRunsAreSpaced(s: System, steps: seq<Step>, i: nat)
    requires Interleaving(s, steps) && Allowed(Next, Gentle, s, steps) && Exclusive(s, steps)
    requires Spaced(s.alerts, s.clock) && i <= |steps|
    ensures Guarded(At(s, steps, i))
  {
    forall t: System, step: Step | Guarded(t) && Proper(t, step) ensures Guarded(Next(t, step)) {
      StepKeepsGuarded(t, step);
    }
    forall k: nat | k < |steps| ensures Proper(After(Next, s, steps, k), steps[k]) {
      assert steps[k].Lookup? ==> Undisturbed(At(s, steps, k), steps[k].j);
    }
    Always(Next, Guarded, Proper, s, steps, i);
  }

  // ----- which batches can race with themselves -----

  /** No two jobs are for the same service and title. */
  predicate DistinctKeys(jobs: seq<Job>) {
    forall j, k | 0 <= j < k < |jobs| :: jobs[j].data.key != jobs[k].data.key
  }

  /**
    ACTIVE alerts of one key are more than 15 minutes apart in every state of every interleaving, as
    long as nobody reopens an alert that is in the way; the declared type rules out reopening any.
   */
  ghost predicate AlwaysSpaced(s: System) {
    forall steps: seq<Step>, i: nat | i <= |steps| && Interleaving(s, steps) && Allowed(Next, Gentle, s, steps) ::
      Spaced(At(s, steps, i).alerts, At(s, steps, i).clock)
  }

  lemma DistinctIsExclusive(s: System, steps: seq<Step>)
    requires DistinctKeys(s.jobs)
    ensures Exclusive(s, steps)
  {
    forall i: nat | i < |steps| && steps[i].Lookup? ensures Undisturbed(At(s, steps, i), steps[i].j) {
      LaterExtends(s, steps, 0, i);
    }
  }

  /** The clock passes every window, then two jobs both look up before either inserts. */
  predicate IsRace(steps: seq<Step>, j: nat, k: nat) {
    && |steps| == 7 && steps[0] == Tick(ALERT_DEDUPE_WINDOW_MS + 1)
    && steps[1] == Start(j) && steps[2] == Start(k) && steps[3] == Lookup(j) && steps[4] == Lookup(k)
    && steps[5] == Insert(j) && steps[6] == Insert(k)
  }

  lemma RaceExists(j: nat, k: nat) returns (steps: seq<Step>)
    ensures IsRace(steps, j, k)
  {
    steps := [Tick(ALERT_DEDUPE_WINDOW_MS + 1), Start(j), Start(k), Lookup(j), Lookup(k), Insert(j), Insert(k)];
  }

  lemma NothingLeftInWindow(s: System, key: Key)
    requires Spaced(s.alerts, s.clock)
    ensures FindDuplicate(s.alerts, key, s.clock + 1).None?
  {
  }

  function InPhases(s: System, j: nat, k: nat, phase: Phase): System
    requires j < |s.jobs| && k < |s.jobs|
  {
    InPhase(InPhase(s, j, phase), k, phase)
  }

  lemma BothStart(s: System, j: nat, k: nat)
    requires j < k < |s.jobs| && Enabled(s, Start(j)) && Enabled(s, Start(k))
    ensures Enabled(Next(s, Start(j)), Start(k))
    ensures Next(Next(s, Start(j)), Start(k)) == InPhases(s, j, k, Started(s.clock - ALERT_DEDUPE_WINDOW_MS))
  {
  }

  lemma BothMiss(s: System, j: nat, k: nat, since: int)
    requires j < k < |s.jobs| && s.jobs[j].phase == s.jobs[k].phase == Started(since)
    requires FindDuplicate(s.alerts, s.jobs[j].data.key, since).None?
    requires FindDuplicate(s.alerts, s.jobs[k].data.key, since).None?
    ensures Enabled(s, Lookup(j)) && Enabled(Next(s, Lookup(j)), Lookup(k))
    ensures Next(Next(s, Lookup(j)), Lookup(k)) == InPhases(s, j, k, Missed(since))
  {
  }

  lemma BothInsert(s: System, j: nat, k: nat)
    requires j < k < |s.jobs| && Enabled(s, Insert(j)) && Enabled(s, Insert(k))
    ensures Enabled(Next(s, Insert(j)), Insert(k))
    ensures Next(Next(s, Insert(j)), Insert(k)).alerts == s.alerts
      + [NewAlert(s.jobs[j].data, |s.alerts|, s.clock), NewAlert(s.jobs[k].data, |s.alerts| + 1, s.clock)]
  {
  }

  lemma TwoSteps(s: System, steps: seq<Step>, i: nat)
    requires i + 2 <= |steps|
    requires Enabled(At(s, steps, i), steps[i]) && Enabled(Next(At(s, steps, i), steps[i]), steps[i + 1])
    ensures At(s, steps, i + 2) == Next(Next(At(s, steps, i), steps[i]), steps[i + 1])
    ensures Enabled(At(s, steps, i), steps[i]) && Enabled(At(s, steps, i + 1), steps[i + 1])
  {
    assert At(s, steps, i + 1) == Next(At(s, steps, i), steps[i]);
  }

  predicate SevenEnabled(s: System, steps: seq<Step>)
    requires |steps| == 7
  {
    && Enabled(At(s, steps, 0), steps[0]) && Enabled(At(s, steps, 1), steps[1]) && Enabled(At(s, steps, 2), steps[2])
    && Enabled(At(s, steps, 3), steps[3]) && Enabled(At(s, steps, 4), steps[4]) && Enabled(At(s, steps, 5), steps[5])
    && Enabled(At(s, steps, 6), steps[6])
  }

  /** Once the clock has passed the windows, both start, both miss, and both insert. */
  lemma RaceFrom(s: System, steps: seq<Step>, ticked: System, j: nat, k: nat)
    requires IsRace(steps, j, k) && At(s, steps, 1) == ticked && j < k < |ticked.jobs|
    requires ticked.jobs[j].phase.Waiting? && ticked.jobs[k].phase.Waiting?
    requires FindDuplicate(ticked.alerts, ticked.jobs[j].data.key, ticked.clock - ALERT_DEDUPE_WINDOW_MS).None?
    requires FindDuplicate(ticked.alerts, ticked.jobs[k].data.key, ticked.clock - ALERT_DEDUPE_WINDOW_MS).None?
    ensures Enabled(At(s, steps, 1), steps[1]) && Enabled(At(s, steps, 2), steps[2])
    ensures Enabled(At(s, steps, 3), steps[3]) && Enabled(At(s, steps, 4), steps[4])
    ensures Enabled(At(s, steps, 5), steps[5]) && Enabled(At(s, steps, 6), steps[6])
    ensures At(s, steps, 7).alerts == ticked.alerts
      + [NewAlert(ticked.jobs[j].data, |ticked.alerts|, ticked.clock),
         NewAlert(ticked.jobs[k].data, |ticked.alerts| + 1, ticked.clock)]
  {
    var since := ticked.clock - ALERT_DEDUPE_WINDOW_MS;
    var started := InPhases(ticked, j, k, Started(since));
    BothStart(ticked, j, k);
    TwoSteps(s, steps, 1);
    BothMiss(started, j, k, since);
    TwoSteps(s, steps, 3);
    BothInsert(InPhases(started, j, k, Missed(since)), j, k);
    TwoSteps(s, steps, 5);
  }

  lemma RaceRuns(s: System, steps: seq<Step>, j: nat, k: nat)
    requires IsRace(steps, j, k) && j < k < |s.jobs| && s.jobs[j].phase.Waiting? && s.jobs[k].phase.Waiting?
    requires FindDuplicate(s.alerts, s.jobs[j].data.key, s.clock + 1).None?
    requires FindDuplicate(s.alerts, s.jobs[k].data.key, s.clock + 1).None?
    ensures SevenEnabled(s, steps)
    ensures var now := s.clock + ALERT_DEDUPE_WINDOW_MS + 1;
      At(s, steps, 7).alerts ==
        s.alerts + [NewAlert(s.jobs[j].data, |s.alerts|, now), NewAlert(s.jobs[k].data, |s.alerts| + 1, now)]
  {
    var ticked := s.(clock := s.clock + ALERT_DEDUPE_WINDOW_MS + 1);
    assert At(s, steps, 0) == s;
    assert At(s, steps, 1) == ticked;
    RaceFrom(s, steps, ticked, j, k);
  }

  lemma SevenAreAll(s: System, steps: seq<Step>)
    requires Initial(s) && |steps| == 7 && SevenEnabled(s, steps)
    requires forall i | 0 <= i < 7 :: !steps[i].SetStatus?
    ensures Interleaving(s, steps) && Allowed(Next, Gentle, s, steps)
  {
  }

  lemma RaceBreaks(s: System, j: nat, k: nat)
    requires Initial(s) && Spaced(s.alerts, s.clock) && j < k < |s.jobs|
    requires s.jobs[j].data.key == s.jobs[k].data.key
    ensures !AlwaysSpaced(s)
  {
    NothingLeftInWindow(s, s.jobs[j].data.key);
    var steps := RaceExists(j, k);
    RaceRuns(s, steps, j, k);
    SevenAreAll(s, steps);
    var s' := At(s, steps, 7);
    assert BothActive(s'.alerts[|s.alerts|], s'.alerts[|s.alerts| + 1]);
  }

  /**
    A batch of jobs started on separated alerts keeps them separated in every interleaving, with
    whatever failures and gentle status updates, if and only if its jobs have pairwise distinct keys.
   */
  lemma BatchIsSpacedIff(s: System)
    requires Initial(s) && Spaced(s.alerts, s.clock)
    ensures AlwaysSpaced(s) <==> DistinctKeys(s.jobs)
  {
    if DistinctKeys(s.jobs) {
      forall steps: seq<Step>, i: nat | i <= |steps| && Interleaving(s, steps) && Allowed(Next, Gentle, s, steps)
        ensures Spaced(At(s, steps, i).alerts, At(s, steps, i).clock)
      {
        DistinctIsExclusive(s, steps);
        ExclusiveRunsAreSpaced(s, steps, i);
      }
    } else {
      var j, k :| 0 <= j < k < |s.jobs| && s.jobs[j].data.key == s.jobs[k].data.key;
      RaceBreaks(s, j, k);
    }
  }
}
