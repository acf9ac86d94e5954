/**
  Serial runs of alert creation and alert updates: one request at a time, a clock that never goes
  back, and producers that leave the status and the time of an alert to the store.
 */
module AlertRuns {
  import opened AlertThresholds
  import opened Alerts
  import opened Common

  datatype Op =
    | Create(data: AlertData, lookupAt: int, insertAt: int)
    | Update(id: nat, status: Status, at: int)

  function EndOf(op: Op): int {
    match op
    case Create(_, _, insertAt) => insertAt
    case Update(_, _, at) => at
  }

  predicate Timely(clock: int, op: Op) {
    match op
    case Create(data, lookupAt, insertAt) => clock <= lookupAt <= insertAt && data.FromProducer()
    case Update(_, _, at) => clock <= at
  }

  predicate SerialRun(clock: int, ops: seq<Op>)
    decreases |ops|
  {
    ops == [] || (Timely(clock, ops[0]) && SerialRun(EndOf(ops[0]), ops[1..]))
  }

  function Apply(alerts: seq<Alert>, op: Op): seq<Alert> {
    match op
    case Create(data, lookupAt, insertAt) => Created(alerts, data, lookupAt, insertAt)
    case Update(id, status, at) => StatusSet(alerts, id, status, at)
  }

  function Run(alerts: seq<Alert>, ops: seq<Op>): seq<Alert>
    decreases |ops|
  {
    if ops == [] then alerts else Run(Apply(alerts, ops[0]), ops[1..])
  }

  function ClockAfter(clock: int, ops: seq<Op>): int
    decreases |ops|
  {
    if ops == [] then clock else ClockAfter(EndOf(ops[0]), ops[1..])
  }

  // ----- separation -----

  ghost predicate BothActive(a: Alert, b: Alert) {
    a.key == b.key && a.status.Active? && b.status.Active?
  }

  /** ACTIVE alerts of one key are more than a window apart, in insertion order; none is from the future. */
  ghost predicate Spaced(alerts: seq<Alert>, clock: int) {
    && Numbered(alerts)
    && (forall i | 0 <= i < |alerts| :: alerts[i].triggeredAt <= clock)
    && (forall i, j | 0 <= i < j < |alerts| && BothActive(alerts[i], alerts[j]) ::
          alerts[i].triggeredAt + ALERT_DEDUPE_WINDOW_MS < alerts[j].triggeredAt)
  }

  /** No other ACTIVE alert of its key lies within a window of this alert, before or after it. */
  predicate Isolated(alerts: seq<Alert>, id: nat)
    requires id < |alerts|
  {
    && (forall i | 0 <= i < id && alerts[i].key == alerts[id].key && alerts[i].status.Active? ::
          alerts[i].triggeredAt + ALERT_DEDUPE_WINDOW_MS < alerts[id].triggeredAt)
    && (forall j | id < j < |alerts| && alerts[j].key == alerts[id].key && alerts[j].status.Active? ::
          alerts[id].triggeredAt + ALERT_DEDUPE_WINDOW_MS < alerts[j].triggeredAt)
  }

  /** Setting an alert to ACTIVE keeps the separation if and only if the alert is isolated. */
  lemma ReactivationKeepsSpacedIff(alerts: seq<Alert>, clock: int, id: nat, at: int)
    requires Spaced(alerts, clock) && clock <= at && id < |alerts|
    ensures Spaced(StatusSet(alerts, id, Active, at), at) <==> Isolated(alerts, id)
  {
    var after := StatusSet(alerts, id, Active, at);
    if Isolated(alerts, id) {
      forall i, j | 0 <= i < j < |after| && BothActive(after[i], after[j])
        ensures after[i].triggeredAt + ALERT_DEDUPE_WINDOW_MS < after[j].triggeredAt
      {
        if i != id && j != id { assert BothActive(alerts[i], alerts[j]); }
      }
    } else if Spaced(after, at) {
      forall i | 0 <= i < id && alerts[i].key == alerts[id].key && alerts[i].status.Active?
        ensures alerts[i].triggeredAt + ALERT_DEDUPE_WINDOW_MS < alerts[id].triggeredAt
      {
        assert BothActive(after[i], after[id]);
      }
      forall j | id < j < |alerts| && alerts[j].key == alerts[id].key && alerts[j].status.Active?
        ensures alerts[id].triggeredAt + ALERT_DEDUPE_WINDOW_MS < alerts[j].triggeredAt
      {
        assert BothActive(after[id], after[j]);
      }
    }
  }

  /** Only an isolated alert is set back to ACTIVE; every other operation is free. */
  predicate Careful(alerts: seq<Alert>, op: Op) {
    op.Update? && op.status.Active? && op.id < |alerts| ==> Isolated(alerts, op.id)
  }

  /** On separated alerts, an operation keeps the separation if and only if it is careful. */
  lemma ApplyKeepsSpacedIff(alerts: seq<Alert>, clock: int, op: Op)
    requires Spaced(alerts, clock) && Timely(clock, op)
    ensures Spaced(Apply(alerts, op), EndOf(op)) <==> Careful(alerts, op)
  {
    var after := Apply(alerts, op);
    match op
    case Create(data, lookupAt, insertAt) =>
      forall i, j | 0 <= i < j < |after| && BothActive(after[i], after[j])
        ensures after[i].triggeredAt + ALERT_DEDUPE_WINDOW_MS < after[j].triggeredAt
      {
        if j == |alerts| {
          assert after[i] in alerts;
          assert !IsDuplicate(after[i], data.key, lookupAt - ALERT_DEDUPE_WINDOW_MS);
        }
      }
    case Update(id, status, at) =>
      if status.Active? && id < |alerts| {
        ReactivationKeepsSpacedIff(alerts, clock, id, at);
      } else {
        forall i, j | 0 <= i < j < |after| && BothActive(after[i], after[j])
          ensures after[i].triggeredAt + ALERT_DEDUPE_WINDOW_MS < after[j].triggeredAt
        {
          assert BothActive(alerts[i], alerts[j]);
        }
      }
  }

  /** Every operation of a run is careful on the store it meets. */
  predicate CarefulRun(alerts: seq<Alert>, ops: seq<Op>)
    decreases |ops|
  {
    ops == [] || (Careful(alerts, ops[0]) && CarefulRun(Apply(alerts, ops[0]), ops[1..]))
  }

  /** The separation holds in every state of a run. */
  ghost predicate SpacedThroughout(alerts: seq<Alert>, clock: int, ops: seq<Op>)
    decreases |ops|
  {
    Spaced(alerts, clock) && (ops == [] || SpacedThroughout(Apply(alerts, ops[0]), EndOf(ops[0]), ops[1..]))
  }

  /**
    A serial run keeps ACTIVE alerts of one key pairwise more than 15 minutes apart throughout, if and
    only if it sets no alert back to ACTIVE within the window of another one.
   */
  lemma {:induction false} SerialRunIsSpacedIff(alerts: seq<Alert>, clock: int, ops: seq<Op>)
    requires Spaced(alerts, clock) && SerialRun(clock, ops)
    ensures SpacedThroughout(alerts, clock, ops) <==> CarefulRun(alerts, ops)
    decreases |ops|
  {
    if ops != [] {
      ApplyKeepsSpacedIff(alerts, clock, ops[0]);
      if Careful(alerts, ops[0]) { SerialRunIsSpacedIff(Apply(alerts, ops[0]), EndOf(ops[0]), ops[1..]); }
    }
  }

  /** So they are at the end of every careful run. */
  lemma {:induction false} SerialRunsAreSpaced(alerts: seq<Alert>, clock: int, ops: seq<Op>)
    requires Spaced(alerts, clock) && SerialRun(clock, ops) && CarefulRun(alerts, ops)
    ensures Spaced(Run(alerts, ops), ClockAfter(clock, ops))
    decreases |ops|
  {
    if ops != [] {
      ApplyKeepsSpacedIff(alerts, clock, ops[0]);
      SerialRunsAreSpaced(Apply(alerts, ops[0]), EndOf(ops[0]), ops[1..]);
    }
  }

  /** The updates that the declared type allows are always careful. */
  lemma {:induction false} DeclaredUpdatesAreCareful(alerts: seq<Alert>, ops: seq<Op>)
    requires forall k | 0 <= k < |ops| :: ops[k].Update? ==> !ops[k].status.Active?
    ensures CarefulRun(alerts, ops)
    decreases |ops|
  {
    if ops != [] { DeclaredUpdatesAreCareful(Apply(alerts, ops[0]), ops[1..]); }
  }

  lemma EmptyStoreIsSpaced(clock: int)
    ensures Spaced([], clock)
  {
  }

  /** So the duplicate lookup never has two candidates, and its answer does not depend on the order of the store. */
  lemma DuplicateIsUnique(alerts: seq<Alert>, clock: int, lookupAt: int, key: Key, a: Alert, b: Alert)
    requires Spaced(alerts, clock) && clock <= lookupAt
    requires a in alerts && IsDuplicate(a, key, lookupAt - ALERT_DEDUPE_WINDOW_MS)
    requires b in alerts && IsDuplicate(b, key, lookupAt - ALERT_DEDUPE_WINDOW_MS)
    ensures a == b
  {
    var i :| 0 <= i < |alerts| && alerts[i] == a;
    var j :| 0 <= j < |alerts| && alerts[j] == b;
    if i < j {
      assert BothActive(alerts[i], alerts[j]);
    } else if j < i {
      assert BothActive(alerts[j], alerts[i]);
    }
  }

  /** A run of four requests that is not careful: resolve an alert, raise it again, reopen the first one. */
  lemma ReactivationBreaksSeparation(key: Key)
    ensures
      var data := AlertData(key, None, None, None, None, None);
      var alerts := Run([], [Create(data, 0, 0), Update(0, Resolved, 1), Create(data, 2, 2)]);
      && |alerts| == 2 && Spaced(alerts, 2) && !Spaced(Apply(alerts, Update(0, Active, 3)), 3)
  {
    var data := AlertData(key, None, None, None, None, None);
    var ops := [Create(data, 0, 0), Update(0, Resolved, 1), Create(data, 2, 2)];
    assert ops[1..] == [Update(0, Resolved, 1), Create(data, 2, 2)];
    assert ops[1..][1..] == [Create(data, 2, 2)];
    assert ops[1..][1..][1..] == [];
    var one := [NewAlert(data, 0, 0)];
    assert Created([], data, 0, 0) == one;
    var two := [WithStatus(one[0], Resolved, 1)];
    assert StatusSet(one, 0, Resolved, 1) == two;
    var three := two + [NewAlert(data, 1, 2)];
    assert Created(two, data, 2, 2) == three;
    assert Run([], ops) == Run(one, ops[1..]) == Run(two, ops[1..][1..]) == Run(three, []);
    var reactivated := StatusSet(three, 0, Active, 3);
    assert BothActive(reactivated[0], reactivated[1]);
  }

  // ----- how many ACTIVE alerts a span of time can hold -----

  /** The ACTIVE alerts of a key triggered between two times, both included. */
  function CountBetween(alerts: seq<Alert>, key: Key, from: int, to: int): nat {
    if alerts == [] then 0 else
    var last := alerts[|alerts| - 1];
    CountBetween(alerts[..|alerts| - 1], key, from, to)
      + if last.key == key && last.status.Active? && from <= last.triggeredAt <= to then 1 else 0
  }

  lemma SpacedPrefix(alerts: seq<Alert>, clock: int, n: nat)
    requires Spaced(alerts, clock) && n <= |alerts|
    ensures Spaced(alerts[..n], clock)
  {
    forall i, j | 0 <= i < j < n && BothActive(alerts[..n][i], alerts[..n][j])
      ensures alerts[..n][i].triggeredAt + ALERT_DEDUPE_WINDOW_MS < alerts[..n][j].triggeredAt
    {
      assert BothActive(alerts[i], alerts[j]);
    }
  }

  /** Nothing ACTIVE of this key is later than `latest`, so looking further ahead counts nothing more. */
  lemma {:induction false} CountStopsAt(alerts: seq<Alert>, key: Key, from: int, to: int, latest: int)
    requires latest <= to
    requires forall a | a in alerts && a.key == key && a.status.Active? :: a.triggeredAt <= latest
    ensures CountBetween(alerts, key, from, to) == CountBetween(alerts, key, from, latest)
    decreases |alerts|
  {
    if alerts != [] {
      var n := |alerts| - 1;
      assert alerts[n] in alerts;
      assert forall a | a in alerts[..n] :: a in alerts;
      CountStopsAt(alerts[..n], key, from, to, latest);
    }
  }

  /** How many points more than a window apart fit between two times. */
  function Capacity(from: int, to: int): nat {
    if to < from then 0 else (to - from) / (ALERT_DEDUPE_WINDOW_MS + 1) + 1
  }

  lemma OneMoreFits(from: int, t: int, to: int)
    requires from <= t <= to
    ensures Capacity(from, t - ALERT_DEDUPE_WINDOW_MS - 1) + 1 <= Capacity(from, to)
  {
    var w := ALERT_DEDUPE_WINDOW_MS + 1;
    if t - w >= from {
      assert (t - from) / w == (t - w - from) / w + 1;
    }
    assert (t - from) / w <= (to - from) / w;
  }

  /** In any span of T milliseconds, one key has at most T / (window + 1) + 1 ACTIVE alerts. */
  lemma {:induction false} SpanBound(alerts: seq<Alert>, clock: int, key: Key, from: int, to: int)
    requires Spaced(alerts, clock)
    ensures CountBetween(alerts, key, from, to) <= Capacity(from, to)
    decreases |alerts|
  {
    if alerts != [] {
      var n := |alerts| - 1;
      var last := alerts[n];
      SpacedPrefix(alerts, clock, n);
      if last.key == key && last.status.Active? && from <= last.triggeredAt <= to {
        var latest := last.triggeredAt - ALERT_DEDUPE_WINDOW_MS - 1;
        forall a | a in alerts[..n] && a.key == key && a.status.Active? ensures a.triggeredAt <= latest {
          var i :| 0 <= i < n && alerts[i] == a;
          assert BothActive(alerts[i], alerts[n]);
        }
        CountStopsAt(alerts[..n], key, from, to, latest);
        SpanBound(alerts[..n], clock, key, from, latest);
        OneMoreFits(from, last.triggeredAt, to);
      } else {
        SpanBound(alerts[..n], clock, key, from, to);
      }
    }
  }

  // ----- the simple form: one cell per key -----

  /** An ACTIVE alert: its time and its id. */
  datatype Cell = Cell(time: int, id: nat)

  datatype Born = Born(key: Key, time: int)

  /** For each key the newest ACTIVE alert, if any, and the key and time of every alert ever inserted. */
  datatype Debouncer = Debouncer(born: seq<Born>, cells: map<Key, Cell>)

  predicate Covered(d: Debouncer, key: Key, lookupAt: int) {
    key in d.cells && d.cells[key].time >= lookupAt - ALERT_DEDUPE_WINDOW_MS
  }

  function Debounce(d: Debouncer, op: Op): Debouncer {
    match op
    case Create(data, lookupAt, insertAt) =>
      if Covered(d, data.key, lookupAt) then d
      else Debouncer(d.born + [Born(data.key, insertAt)], d.cells[data.key := Cell(insertAt, |d.born|)])
    case Update(id, status, _) =>
      if !status.Active? then d.(cells := map k | k in d.cells && d.cells[k].id != id :: d.cells[k])
      else if id >= |d.born| || Newer(d, d.born[id]) then d
      else d.(cells := d.cells[d.born[id].key := Cell(d.born[id].time, id)])
  }

  /** The key has an ACTIVE alert that is not older. */
  predicate Newer(d: Debouncer, b: Born) {
    b.key in d.cells && d.cells[b.key].time >= b.time
  }

  /** The id of the alert that the simple form answers a creation with. */
  function DebouncedId(d: Debouncer, data: AlertData, lookupAt: int): nat {
    if Covered(d, data.key, lookupAt) then d.cells[data.key].id else |d.born|
  }

  function DebounceAll(d: Debouncer, ops: seq<Op>): Debouncer
    decreases |ops|
  {
    if ops == [] then d else DebounceAll(Debounce(d, ops[0]), ops[1..])
  }

  /** Each cell is an ACTIVE alert of its key; an ACTIVE alert in no cell is out of the window for good. */
  ghost predicate Mirrors(d: Debouncer, alerts: seq<Alert>, clock: int) {
    && |d.born| == |alerts|
    && (forall i | 0 <= i < |alerts| :: d.born[i] == Born(alerts[i].key, alerts[i].triggeredAt))
    && (forall k | k in d.cells ::
          var c := d.cells[k];
          && c.id < |alerts| && alerts[c.id].key == k && alerts[c.id].status.Active?
          && alerts[c.id].triggeredAt == c.time)
    && (forall i | 0 <= i < |alerts| && alerts[i].status.Active? ::
          InCell(d, alerts[i].key, i) || alerts[i].triggeredAt + ALERT_DEDUPE_WINDOW_MS < clock)
  }

  ghost predicate InCell(d: Debouncer, key: Key, i: nat) {
    key in d.cells && d.cells[key].id == i
  }

  /** `create` inserts exactly when the simple form says so, and both answer with the same alert. */
  lemma CreateAgrees(d: Debouncer, alerts: seq<Alert>, clock: int, data: AlertData, lookupAt: int, insertAt: int)
    requires Spaced(alerts, clock) && Mirrors(d, alerts, clock)
    requires clock <= lookupAt <= insertAt && data.FromProducer()
    ensures |Created(alerts, data, lookupAt, insertAt)| == |alerts| <==> Covered(d, data.key, lookupAt)
    ensures CreatedAnswer(alerts, data, lookupAt, insertAt).id == DebouncedId(d, data, lookupAt)
  {
    var since := lookupAt - ALERT_DEDUPE_WINDOW_MS;
    var found := FindDuplicate(alerts, data.key, since);
    if Covered(d, data.key, lookupAt) {
      assert alerts[d.cells[data.key].id] in alerts;
      assert IsDuplicate(alerts[d.cells[data.key].id], data.key, since);
    }
    if found.Some? {
      var i :| 0 <= i < |alerts| && alerts[i] == found.value;
      assert InCell(d, data.key, i);
    }
  }

  lemma DebounceCreateMirrors(d: Debouncer, alerts: seq<Alert>, clock: int, op: Op)
    requires Spaced(alerts, clock) && Mirrors(d, alerts, clock) && Timely(clock, op) && op.Create?
    ensures Mirrors(Debounce(d, op), Apply(alerts, op), EndOf(op))
  {
    CreateAgrees(d, alerts, clock, op.data, op.lookupAt, op.insertAt);
    var d', after := Debounce(d, op), Apply(alerts, op);
    forall i | 0 <= i < |after| && after[i].status.Active?
      ensures InCell(d', after[i].key, i) || after[i].triggeredAt + ALERT_DEDUPE_WINDOW_MS < op.insertAt
    {
      if i < |alerts| && InCell(d, after[i].key, i) && after[i].key == op.data.key && d' != d {
        assert !Covered(d, op.data.key, op.lookupAt);
      }
    }
  }

  lemma DebounceCloseMirrors(d: Debouncer, alerts: seq<Alert>, clock: int, id: nat, status: UpdateStatus, at: int)
    requires Mirrors(d, alerts, clock) && clock <= at
    ensures Mirrors(Debounce(d, Update(id, status, at)), StatusSet(alerts, id, status, at), at)
  {
    var d', after := Debounce(d, Update(id, status, at)), StatusSet(alerts, id, status, at);
    forall i | 0 <= i < |after| && after[i].status.Active?
      ensures InCell(d', after[i].key, i) || after[i].triggeredAt + ALERT_DEDUPE_WINDOW_MS < at
    {
      assert i != id && after[i] == alerts[i];
    }
  }

  /** Reopening an isolated alert: of it and the newest ACTIVE one, the older is out of the window. */
  lemma DebounceReopenMirrors(d: Debouncer, alerts: seq<Alert>, clock: int, id: nat, at: int)
    requires Spaced(alerts, clock) && Mirrors(d, alerts, clock) && clock <= at
    requires id < |alerts| && Isolated(alerts, id)
    ensures Mirrors(Debounce(d, Update(id, Active, at)), StatusSet(alerts, id, Active, at), at)
  {
    var d', after := Debounce(d, Update(id, Active, at)), StatusSet(alerts, id, Active, at);
    var key := alerts[id].key;
    forall i | 0 <= i < |after| && after[i].status.Active?
      ensures InCell(d', after[i].key, i) || after[i].triggeredAt + ALERT_DEDUPE_WINDOW_MS < at
    {
      if key in d.cells && d.cells[key].id != id && (i == id || i == d.cells[key].id) {
        assert alerts[d.cells[key].id].status.Active?;
      }
    }
  }

  lemma DebounceMirrors(d: Debouncer, alerts: seq<Alert>, clock: int, op: Op)
    requires Spaced(alerts, clock) && Mirrors(d, alerts, clock) && Timely(clock, op) && Careful(alerts, op)
    ensures Mirrors(Debounce(d, op), Apply(alerts, op), EndOf(op))
  {
    match op
    case Create(_, _, _) => DebounceCreateMirrors(d, alerts, clock, op);
    case Update(id, status, at) =>
      if !status.Active? {
        DebounceCloseMirrors(d, alerts, clock, id, status, at);
      } else if id < |alerts| {
        DebounceReopenMirrors(d, alerts, clock, id, at);
      }
  }

  /** Over every careful serial run the store and the simple form stay in step. */
  lemma {:induction false} DebouncerFollowsStore(d: Debouncer, alerts: seq<Alert>, clock: int, ops: seq<Op>)
    requires Spaced(alerts, clock) && Mirrors(d, alerts, clock) && SerialRun(clock, ops) && CarefulRun(alerts, ops)
    ensures Mirrors(DebounceAll(d, ops), Run(alerts, ops), ClockAfter(clock, ops))
    decreases |ops|
  {
    if ops != [] {
      DebounceMirrors(d, alerts, clock, ops[0]);
      ApplyKeepsSpacedIff(alerts, clock, ops[0]);
      DebouncerFollowsStore(Debounce(d, ops[0]), Apply(alerts, ops[0]), EndOf(ops[0]), ops[1..]);
    }
  }

  /**
    After every careful serial run from an empty store, `create` inserts exactly when a map from each
    key to its newest ACTIVE alert has no entry in the window, and otherwise answers with that entry.
   */
  lemma StoreRefinesDebouncer(start: int, ops: seq<Op>, data: AlertData, lookupAt: int, insertAt: int)
    requires SerialRun(start, ops) && CarefulRun([], ops) && data.FromProducer()
    requires ClockAfter(start, ops) <= lookupAt <= insertAt
    ensures var alerts := Run([], ops);
      var d := DebounceAll(Debouncer([], map[]), ops);
      && (|Created(alerts, data, lookupAt, insertAt)| == |alerts| <==> Covered(d, data.key, lookupAt))
      && CreatedAnswer(alerts, data, lookupAt, insertAt).id == DebouncedId(d, data, lookupAt)
  {
    EmptyStoreIsSpaced(start);
    SerialRunsAreSpaced([], start, ops);
    DebouncerFollowsStore(Debouncer([], map[]), [], start, ops);
    CreateAgrees(DebounceAll(Debouncer([], map[]), ops), Run([], ops), ClockAfter(start, ops), data, lookupAt,
                 insertAt);
  }
}
