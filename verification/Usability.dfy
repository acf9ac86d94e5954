/**
  Usability aggregation (src/usability/usability.service.ts:87-203, 292-309) over exact numbers:
  where the program computes with floating point, this model computes with reals.
 */
module Usability {
  import opened Common
  import opened Sorting

  /** A recorded event; a field of another type than expected counts as absent. */
  datatype Event = Event(
    name: string, taskId: Option<string>, sessionId: string, durationMs: Option<real>,
    metric: Option<string>, value: Option<real>)

  // ----- rounding -----

  /** Rounding to the nearest whole number, halves upwards. */
  function RoundWhole(x: real): int {
    (x + 0.5).Floor
  }

  function Ceil(x: real): int {
    -((-x).Floor)
  }

  /** Rounding to three decimals. */
  function Round(x: real): real {
    RoundWhole(x * 1000.0) as real / 1000.0
  }

  /** The whole number is the nearest one to x, the greater of the two if x lies halfway. */
  predicate IsNearest(n: int, x: real) {
    n as real - 0.5 <= x < n as real + 0.5
  }

  lemma RoundWholeIsNearest(x: real, n: int)
    ensures RoundWhole(x) == n <==> IsNearest(n, x)
  {
  }

  /** The number has at most three decimals, and no such number is nearer to x; halfway it is the greater one. */
  predicate IsRounded(r: real, x: real) {
    r * 1000.0 == (r * 1000.0).Floor as real && IsNearest((r * 1000.0).Floor, x * 1000.0)
  }

  lemma RoundIs(x: real, r: real)
    ensures Round(x) == r <==> IsRounded(r, x)
  {
    var n := RoundWhole(x * 1000.0);
    assert Round(x) * 1000.0 == n as real && (n as real).Floor == n;
    if IsRounded(r, x) { RoundWholeIsNearest(x * 1000.0, (r * 1000.0).Floor); }
  }

  lemma RoundIsClose(x: real)
    ensures x - 0.0005 <= Round(x) <= x + 0.0005
  {
    RoundIs(x, Round(x));
  }

  lemma RoundIsMonotone(x: real, y: real)
    requires x <= y
    ensures RoundWhole(x) <= RoundWhole(y)
  {
  }

  function Rate(numerator: nat, denominator: nat): real {
    if denominator > 0 then Round(numerator as real / denominator as real) else 0.0
  }

  // ----- percentiles -----

  function Value(x: real): real {
    x
  }

  lemma CeilIsLeast(x: real)
    ensures Ceil(x) as real - 1.0 < x <= Ceil(x) as real
  {
  }

  lemma CeilIsMonotone(x: real, y: real)
    requires x <= y
    ensures Ceil(x) <= Ceil(y)
  {
  }

  function Share(n: nat, p: real): real {
    p * n as real
  }

  /** How many values make up the share p of n, rounded up. */
  function Rank(n: nat, p: real): int {
    Ceil(Share(n, p))
  }

  /** Where the nearest-rank percentile of n sorted values is. */
  function RankIndex(n: nat, p: real): int {
    var index := Rank(n, p) - 1;
    if n - 1 <= index then n - 1 else index
  }

  lemma ShareBounds(n: nat, p: real, q: real)
    requires n > 0 && 0.0 < p <= q <= 1.0
    ensures 0.0 < Share(n, p) <= Share(n, q) <= n as real
  {
    var r := n as real;
    assert (q - p) * r >= 0.0 && (1.0 - q) * r >= 0.0;
  }

  /** The source asks for the median and the 95th percentile; the rank is in range for any share above zero. */
  lemma RankIndexInRange(n: nat, p: real)
    requires n > 0 && 0.0 < p <= 1.0
    ensures 1 <= Rank(n, p) <= n && RankIndex(n, p) == Rank(n, p) - 1
  {
    ShareBounds(n, p, p);
    CeilIsLeast(Share(n, p));
    CeilIsMonotone(Share(n, p), n as real);
  }

  function Percentile(values: seq<real>, p: real): Option<int>
    requires 0.0 < p <= 1.0
  {
    if values == [] then None else
    RankIndexInRange(|values|, p);
    Some(RoundWhole(values[RankIndex(|values|, p)]))
  }

  function CountAtMost(s: seq<real>, v: real): nat {
    if s == [] then 0 else (if s[0] <= v then 1 else 0) + CountAtMost(s[1..], v)
  }

  function CountBelow(s: seq<real>, v: real): nat {
    if s == [] then 0 else (if s[0] < v then 1 else 0) + CountBelow(s[1..], v)
  }

  lemma {:induction false} InsertCounts(x: real, s: seq<real>, v: real)
    ensures CountAtMost(Insert(Value, x, s), v) == CountAtMost(s, v) + if x <= v then 1 else 0
    ensures CountBelow(Insert(Value, x, s), v) == CountBelow(s, v) + if x < v then 1 else 0
    decreases |s|
  {
    if s == [] || x <= s[0] {
      assert ([x] + s)[1..] == s;
    } else {
      InsertCounts(x, s[1..], v);
      assert Insert(Value, x, s)[1..] == Insert(Value, x, s[1..]);
    }
  }

  lemma {:induction false} SortCounts(s: seq<real>, v: real)
    ensures CountAtMost(Sort(Value, s), v) == CountAtMost(s, v)
    ensures CountBelow(Sort(Value, s), v) == CountBelow(s, v)
    decreases |s|
  {
    if s != [] {
      SortCounts(s[1..], v);
      InsertCounts(s[0], Sort(Value, s[1..]), v);
    }
  }

  /** In an ordered list, the value at k has k + 1 values at most it and at most k below it. */
  lemma {:induction false} OrderedCounts(s: seq<real>, k: nat)
    requires k < |s| && Ordered(Value, s)
    ensures CountAtMost(s, s[k]) >= k + 1
    ensures CountBelow(s, s[k]) <= k
    decreases |s|
  {
    assert Value(s[0]) <= Value(s[k]);
    if k == 0 {
      NoneBelow(s, s[0]);
    } else {
      OrderedCounts(s[1..], k - 1);
    }
  }

  lemma {:induction false} NoneBelow(s: seq<real>, v: real)
    requires forall i | 0 <= i < |s| :: v <= Value(s[i])
    ensures CountBelow(s, v) == 0
    decreases |s|
  {
    if s != [] {
      assert v <= Value(s[0]);
      NoneBelow(s[1..], v);
    }
  }

  /** The first number is less than the share p of n, the second one at least that. */
  predicate Straddles(below: nat, atMost: nat, p: real, n: nat) {
    below as real < p * n as real <= atMost as real
  }

  /** Fewer than a rank are fewer than the share of the values that it stands for, and as many are at least that. */
  lemma RankIsShare(n: nat, p: real, below: nat, atMost: nat)
    requires below < Rank(n, p) <= atMost
    ensures Straddles(below, atMost, p, n)
  {
    CeilIsLeast(Share(n, p));
  }

  /** At least the share p of the values are at most v, and less than that lie below it. */
  predicate IsPercentile(v: real, values: seq<real>, p: real) {
    Straddles(CountBelow(values, v), CountAtMost(values, v), p, |values|)
  }

  /** The reported percentile is the rounded nearest-rank value: some value of the list that is a percentile of it. */
  lemma PercentileIsNearestRank(values: seq<real>, p: real) returns (v: real)
    requires values != [] && 0.0 < p <= 1.0
    ensures Percentile(Sort(Value, values), p).Some? && IsNearest(Percentile(Sort(Value, values), p).value, v)
    ensures v in values && IsPercentile(v, values, p)
  {
    var sorted := Sort(Value, values);
    SortIsStable(Value, values);
    RankIndexInRange(|values|, p);
    var k := RankIndex(|values|, p);
    v := sorted[k];
    OrderedCounts(sorted, k);
    SortCounts(values, v);
    RankIsShare(|values|, p, CountBelow(values, v), CountAtMost(values, v));
    assert v in values by {
      assert v in multiset(sorted);
      assert v in multiset(values);
    }
  }

  lemma PercentileIgnoresOrder(values: seq<real>, shuffled: seq<real>, p: real)
    requires multiset(values) == multiset(shuffled) && 0.0 < p <= 1.0
    ensures Percentile(Sort(Value, values), p) == Percentile(Sort(Value, shuffled), p)
  {
    SortIgnoresOrder(Value, values, shuffled);
  }

  /** A greater share never gives a smaller value; so the median is at most the 95th percentile. */
  lemma PercentilesAreOrdered(values: seq<real>, p: real, q: real)
    requires values != [] && 0.0 < p <= q <= 1.0
    ensures Percentile(Sort(Value, values), p).value <= Percentile(Sort(Value, values), q).value
  {
    var sorted := Sort(Value, values);
    SortIsStable(Value, values);
    RanksAreOrdered(|values|, p, q);
    var i, j := RankIndex(|values|, p), RankIndex(|values|, q);
    assert Value(sorted[i]) <= Value(sorted[j]);
    RoundIsMonotone(sorted[i], sorted[j]);
  }

  lemma RanksAreOrdered(n: nat, p: real, q: real)
    requires n > 0 && 0.0 < p <= q <= 1.0
    ensures 0 <= RankIndex(n, p) <= RankIndex(n, q) < n
  {
    RankIndexInRange(n, p);
    RankIndexInRange(n, q);
    ShareBounds(n, p, q);
    CeilIsMonotone(Share(n, p), Share(n, q));
  }

  // ----- tasks -----

  datatype TaskSummary = TaskSummary(
    taskId: string, started: nat, completed: nat, failed: nat, abandoned: nat, validationErrors: nat,
    resultsViewed: nat, completionRate: real, abandonmentRate: real, errorRate: real,
    medianDurationMs: Option<int>, p95DurationMs: Option<int>)

  function OfTask(events: seq<Event>, taskId: string): seq<Event> {
    if events == [] then [] else
    var last := events[|events| - 1];
    OfTask(events[..|events| - 1], taskId) + if last.taskId == Some(taskId) then [last] else []
  }

  function CountNamed(events: seq<Event>, name: string): nat {
    if events == [] then 0
    else CountNamed(events[..|events| - 1], name) + if events[|events| - 1].name == name then 1 else 0
  }

  /** The durations of the completed tasks that have one. */
  function Durations(events: seq<Event>): seq<real> {
    if events == [] then [] else
    var last := events[|events| - 1];
    Durations(events[..|events| - 1])
      + if last.name == "task_completed" && last.durationMs.Some? then [last.durationMs.value] else []
  }

  function SummarizeTask(taskId: string, events: seq<Event>): TaskSummary {
    var taskEvents := OfTask(events, taskId);
    var started := CountNamed(taskEvents, "task_started");
    var completed := CountNamed(taskEvents, "task_completed");
    var failed := CountNamed(taskEvents, "task_failed");
    var abandoned := CountNamed(taskEvents, "task_abandoned");
    var validationErrors := CountNamed(taskEvents, "validation_error");
    var resultsViewed := CountNamed(taskEvents, "result_viewed");
    var durations := Sort(Value, Durations(taskEvents));
    TaskSummary(taskId, started, completed, failed, abandoned, validationErrors, resultsViewed,
                Rate(completed, started), Rate(abandoned, started), Rate(failed + validationErrors, started),
                Percentile(durations, 0.5), Percentile(durations, 0.95))
  }

  predicate InTask(e: Event, taskId: string, name: string) {
    e.taskId == Some(taskId) && e.name == name
  }

  /** Where the events of this name that belong to the task are. */
  ghost function Positions(events: seq<Event>, taskId: string, name: string): set<int> {
    PositionsOf(events, (e: Event) => InTask(e, taskId, name))
  }

  lemma CountNamedAppend(events: seq<Event>, last: Event, name: string)
    ensures CountNamed(events + [last], name) == CountNamed(events, name) + if last.name == name then 1 else 0
  {
    assert (events + [last])[..|events|] == events;
  }

  lemma {:induction false} CountIsCardinality(events: seq<Event>, taskId: string, name: string)
    ensures CountNamed(OfTask(events, taskId), name) == |Positions(events, taskId, name)|
    decreases |events|
  {
    if events != [] {
      var n := |events| - 1;
      CountIsCardinality(events[..n], taskId, name);
      PositionsStep(events, (e: Event) => InTask(e, taskId, name));
      CountNamedAppend(OfTask(events[..n], taskId), events[n], name);
      assert OfTask(events[..n], taskId) + [] == OfTask(events[..n], taskId);
    }
  }

  /** A rate is the exact quotient, rounded to three decimals, and zero when nothing was started. */
  predicate IsRate(rate: real, numerator: nat, denominator: nat) {
    if denominator == 0 then rate == 0.0 else IsRounded(rate, numerator as real / denominator as real)
  }

  /** Each counter of a summary is the number of events of its name in the task, and each rate is over those started. */
  lemma TaskSummaryMeaning(taskId: string, events: seq<Event>)
    ensures var s := SummarizeTask(taskId, events);
      && s.taskId == taskId
      && s.started == |Positions(events, taskId, "task_started")|
      && s.completed == |Positions(events, taskId, "task_completed")|
      && s.failed == |Positions(events, taskId, "task_failed")|
      && s.abandoned == |Positions(events, taskId, "task_abandoned")|
      && s.validationErrors == |Positions(events, taskId, "validation_error")|
      && s.resultsViewed == |Positions(events, taskId, "result_viewed")|
      && IsRate(s.completionRate, s.completed, s.started)
      && IsRate(s.abandonmentRate, s.abandoned, s.started)
      && IsRate(s.errorRate, s.failed + s.validationErrors, s.started)
  {
    CountIsCardinality(events, taskId, "task_started");
    CountIsCardinality(events, taskId, "task_completed");
    CountIsCardinality(events, taskId, "task_failed");
    CountIsCardinality(events, taskId, "task_abandoned");
    CountIsCardinality(events, taskId, "validation_error");
    CountIsCardinality(events, taskId, "result_viewed");
    var s := SummarizeTask(taskId, events);
    RateIsRounded(s.completed, s.started);
    RateIsRounded(s.abandoned, s.started);
    RateIsRounded(s.failed + s.validationErrors, s.started);
  }

  lemma RateIsRounded(numerator: nat, denominator: nat)
    ensures IsRate(Rate(numerator, denominator), numerator, denominator)
  {
    if denominator > 0 {
      var q := numerator as real / denominator as real;
      RoundIs(q, Round(q));
    }
  }

  function SumCounts(events: seq<Event>, names: seq<string>): nat {
    if names == [] then 0 else CountNamed(events, names[0]) + SumCounts(events, names[1..])
  }

  lemma {:induction false} SumCountsStep(events: seq<Event>, names: seq<string>)
    requires events != [] && Distinct(names)
    ensures SumCounts(events, names) ==
      SumCounts(events[..|events| - 1], names) + if events[|events| - 1].name in names then 1 else 0
    decreases |names|
  {
    if names != [] {
      SumCountsStep(events, names[1..]);
      assert names == [names[0]] + names[1..];
    }
  }

  /** Counters of different event names count each event at most once. */
  lemma {:induction false} EachEventCountsOnce(events: seq<Event>, names: seq<string>)
    requires Distinct(names)
    ensures SumCounts(events, names) <= |events|
    decreases |events|
  {
    if events == [] {
      NoEventsNoCount(names);
    } else {
      SumCountsStep(events, names);
      EachEventCountsOnce(events[..|events| - 1], names);
    }
  }

  lemma {:induction false} NoEventsNoCount(names: seq<string>)
    ensures SumCounts([], names) == 0
    decreases |names|
  {
    if names != [] { NoEventsNoCount(names[1..]); }
  }

  // ----- task durations, read off the events -----

  /** A completion of the task that has a duration with the property. */
  predicate CompletedIn(e: Event, taskId: string, p: real -> bool) {
    e.taskId == Some(taskId) && e.name == "task_completed" && e.durationMs.Some? && p(e.durationMs.value)
  }

  /** Where these completions are. */
  ghost function Completions(events: seq<Event>, taskId: string, p: real -> bool): set<int> {
    PositionsOf(events, (e: Event) => CompletedIn(e, taskId, p))
  }

  function CountWith(values: seq<real>, p: real -> bool): nat {
    if values == [] then 0
    else CountWith(values[..|values| - 1], p) + if p(values[|values| - 1]) then 1 else 0
  }

  lemma CountWithSnoc(values: seq<real>, v: real, p: real -> bool)
    ensures CountWith(values + [v], p) == CountWith(values, p) + if p(v) then 1 else 0
  {
    assert (values + [v])[..|values|] == values;
  }

  lemma DurationsSnoc(events: seq<Event>, e: Event)
    ensures Durations(events + [e]) ==
      if e.name == "task_completed" && e.durationMs.Some? then Durations(events) + [e.durationMs.value]
      else Durations(events)
  {
    assert (events + [e])[..|events|] == events;
    assert Durations(events) + [] == Durations(events);
  }

  /** The durations of a task with a property are as many as its completions with one. */
  lemma {:induction false} DurationsAreCompletions(events: seq<Event>, taskId: string, p: real -> bool)
    ensures CountWith(Durations(OfTask(events, taskId)), p) == |Completions(events, taskId, p)|
    decreases |events|
  {
    if events != [] {
      var prefix, last := events[..|events| - 1], events[|events| - 1];
      var durations := Durations(OfTask(prefix, taskId));
      DurationsAreCompletions(prefix, taskId, p);
      PositionsStep(events, (e: Event) => CompletedIn(e, taskId, p));
      DurationsSnoc(OfTask(prefix, taskId), last);
      if last.durationMs.Some? { CountWithSnoc(durations, last.durationMs.value, p); }
      assert OfTask(prefix, taskId) + [] == OfTask(prefix, taskId);
    }
  }

  lemma {:induction false} CountWithFirst(values: seq<real>, p: real -> bool)
    requires values != []
    ensures CountWith(values, p) == CountWith(values[1..], p) + if p(values[0]) then 1 else 0
    decreases |values|
  {
    if |values| > 1 {
      var n := |values| - 1;
      CountWithFirst(values[..n], p);
      assert values[..n][1..] == values[1..][..n - 1];
    }
  }

  function Any(): real -> bool { (x: real) => true }

  function Exactly(v: real): real -> bool { (x: real) => x == v }

  function Below(v: real): real -> bool { (x: real) => x < v }

  function UpTo(v: real): real -> bool { (x: real) => x <= v }

  /** The counts behind the percentiles are such counts. */
  lemma {:induction false} CountsWith(values: seq<real>, v: real)
    ensures CountAtMost(values, v) == CountWith(values, UpTo(v))
    ensures CountBelow(values, v) == CountWith(values, Below(v))
    ensures |values| == CountWith(values, Any())
    decreases |values|
  {
    if values != [] {
      CountsWith(values[1..], v);
      CountWithFirst(values, UpTo(v));
      CountWithFirst(values, Below(v));
      CountWithFirst(values, Any());
    }
  }

  lemma {:induction false} CountedOnce(values: seq<real>, v: real)
    requires v in values
    ensures CountWith(values, Exactly(v)) > 0
    decreases |values|
  {
    var n := |values| - 1;
    if values[n] != v {
      assert values == values[..n] + [values[n]];
      CountedOnce(values[..n], v);
    }
  }

  /** Some completion of the task takes v; the share p of them take at most that long, and less than p take less. */
  ghost predicate IsTaskPercentile(v: real, events: seq<Event>, taskId: string, p: real) {
    && Completions(events, taskId, Exactly(v)) != {}
    && Straddles(|Completions(events, taskId, Below(v))|, |Completions(events, taskId, UpTo(v))|,
                 p, |Completions(events, taskId, Any())|)
  }

  lemma TaskPercentileOf(events: seq<Event>, taskId: string, durations: seq<real>, p: real, v: real)
    requires durations == Durations(OfTask(events, taskId)) && v in durations && IsPercentile(v, durations, p)
    ensures IsTaskPercentile(v, events, taskId, p)
  {
    CountsWith(durations, v);
    CountedOnce(durations, v);
    DurationsAreCompletions(events, taskId, Any());
    DurationsAreCompletions(events, taskId, Below(v));
    DurationsAreCompletions(events, taskId, UpTo(v));
    DurationsAreCompletions(events, taskId, Exactly(v));
  }

  /** The number is a percentile of the durations of the task, rounded. */
  ghost predicate Reports(n: int, events: seq<Event>, taskId: string, p: real) {
    exists v :: IsTaskPercentile(v, events, taskId, p) && IsNearest(n, v)
  }

  lemma DurationPercentile(events: seq<Event>, taskId: string, p: real)
    requires 0.0 < p <= 1.0
    ensures var reported := Percentile(Sort(Value, Durations(OfTask(events, taskId))), p);
      && (reported.Some? <==> Completions(events, taskId, Any()) != {})
      && (reported.Some? ==> Reports(reported.value, events, taskId, p))
  {
    var durations := Durations(OfTask(events, taskId));
    SortIsStable(Value, durations);
    CountsWith(durations, 0.0);
    DurationsAreCompletions(events, taskId, Any());
    if durations != [] {
      var v := PercentileIsNearestRank(durations, p);
      TaskPercentileOf(events, taskId, durations, p, v);
    }
  }

  /**
    The median and the 95th percentile are reported if and only if some completion of the task has a
    duration. Each is the duration of a completion, rounded, that at least this share of them do not
    exceed and that less than this share stay below; the median is the smaller one.
   */
  lemma TaskPercentiles(taskId: string, events: seq<Event>)
    ensures var s := SummarizeTask(taskId, events);
      && (s.medianDurationMs.Some? <==> Completions(events, taskId, Any()) != {})
      && (s.p95DurationMs.Some? <==> Completions(events, taskId, Any()) != {})
      && (s.medianDurationMs.Some? ==>
            && s.medianDurationMs.value <= s.p95DurationMs.value
            && Reports(s.medianDurationMs.value, events, taskId, 0.5)
            && Reports(s.p95DurationMs.value, events, taskId, 0.95))
  {
    var durations := Durations(OfTask(events, taskId));
    SortIsStable(Value, durations);
    DurationPercentile(events, taskId, 0.5);
    DurationPercentile(events, taskId, 0.95);
    if durations != [] { PercentilesAreOrdered(durations, 0.5, 0.95); }
  }

  // ----- web vitals -----

  datatype Vital = Vital(metric: string, count: nat, average: real)

  predicate IsVital(e: Event) {
    e.name == "web_vital_recorded" && e.metric.Some? && e.value.Some?
  }

  /** The metrics recorded, each once, in the order in which they are first seen. */
  function Metrics(events: seq<Event>): seq<string> {
    if events == [] then [] else
    var before := Metrics(events[..|events| - 1]);
    var last := events[|events| - 1];
    if IsVital(last) && last.metric.value !in before then before + [last.metric.value] else before
  }

  function ValuesOf(events: seq<Event>, metric: string): seq<real> {
    if events == [] then [] else
    var last := events[|events| - 1];
    ValuesOf(events[..|events| - 1], metric)
      + if IsVital(last) && last.metric.value == metric then [last.value.value] else []
  }

  function CountVitals(events: seq<Event>): nat {
    if events == [] then 0
    else CountVitals(events[..|events| - 1]) + if IsVital(events[|events| - 1]) then 1 else 0
  }

  function Sum(values: seq<real>): real {
    if values == [] then 0.0 else Sum(values[..|values| - 1]) + values[|values| - 1]
  }

  function Mean(values: seq<real>): real
    requires values != []
  {
    Sum(values) / |values| as real
  }

  function VitalOf(metric: string, values: seq<real>): Vital
    requires values != []
  {
    Vital(metric, |values|, Round(Mean(values)))
  }

  lemma {:induction false} MetricsAreThoseRecorded(events: seq<Event>)
    ensures Distinct(Metrics(events))
    ensures forall m :: m in Metrics(events) <==> ValuesOf(events, m) != []
    decreases |events|
  {
    if events != [] {
      MetricsAreThoseRecorded(events[..|events| - 1]);
    }
  }

  // ----- averages, read off the values -----

  /** By how much the values lie above m, all together. */
  function Deviation(values: seq<real>, m: real): real {
    if values == [] then 0.0 else Deviation(values[..|values| - 1], m) + (values[|values| - 1] - m)
  }

  lemma {:induction false} DeviationIs(values: seq<real>, m: real)
    ensures Deviation(values, m) == Sum(values) - m * |values| as real
    decreases |values|
  {
    if values != [] {
      var n := |values| - 1;
      DeviationIs(values[..n], m);
      assert m * (n + 1) as real == m * n as real + m;
    }
  }

  /** The mean is the one number that the values lie above as much as below. */
  lemma MeanBalances(values: seq<real>, m: real)
    requires values != []
    ensures Deviation(values, m) == 0.0 <==> m == Mean(values)
  {
    var n := |values| as real;
    DeviationIs(values, m);
    assert Mean(values) * n == Sum(values);
    TimesPositive(m, Mean(values), n);
    TimesPositive(Mean(values), m, n);
  }

  /** The number is the mean, rounded to three decimals. */
  ghost predicate IsAverage(average: real, values: seq<real>) {
    exists m :: Deviation(values, m) == 0.0 && IsRounded(average, m)
  }

  lemma RoundedMeanIsAverage(values: seq<real>)
    requires values != []
    ensures IsAverage(Round(Mean(values)), values)
  {
    MeanBalances(values, Mean(values));
    RoundIs(Mean(values), Round(Mean(values)));
  }

  /** A recorded value of this metric. */
  predicate IsVitalOf(e: Event, metric: string) {
    e.name == "web_vital_recorded" && e.metric == Some(metric) && e.value.Some?
  }

  ghost function VitalPositions(events: seq<Event>, metric: string): set<int> {
    PositionsOf(events, (e: Event) => IsVitalOf(e, metric))
  }

  /** By how much the recorded values of the metric lie above m, all together. */
  function VitalDeviation(events: seq<Event>, metric: string, m: real): real {
    if events == [] then 0.0 else
    var last := events[|events| - 1];
    VitalDeviation(events[..|events| - 1], metric, m) + if IsVitalOf(last, metric) then last.value.value - m else 0.0
  }

  lemma DeviationSnoc(values: seq<real>, v: real, m: real)
    ensures Deviation(values + [v], m) == Deviation(values, m) + (v - m)
  {
    assert (values + [v])[..|values|] == values;
  }

  lemma {:induction false} ValuesAreRecorded(events: seq<Event>, metric: string, m: real)
    ensures |ValuesOf(events, metric)| == |VitalPositions(events, metric)|
    ensures Deviation(ValuesOf(events, metric), m) == VitalDeviation(events, metric, m)
    decreases |events|
  {
    if events != [] {
      var prefix, last := events[..|events| - 1], events[|events| - 1];
      ValuesAreRecorded(prefix, metric, m);
      PositionsStep(events, (e: Event) => IsVitalOf(e, metric));
      if last.value.Some? { DeviationSnoc(ValuesOf(prefix, metric), last.value.value, m); }
      assert ValuesOf(prefix, metric) + [] == ValuesOf(prefix, metric);
    }
  }

  /** The summary counts the recorded values of its metric, and has their mean, rounded to three decimals. */
  ghost predicate Summarizes(v: Vital, events: seq<Event>) {
    && v.count == |VitalPositions(events, v.metric)| && v.count > 0
    && exists m :: VitalDeviation(events, v.metric, m) == 0.0 && IsRounded(v.average, m)
  }

  lemma VitalSummarizes(events: seq<Event>, metric: string)
    requires ValuesOf(events, metric) != []
    ensures Summarizes(VitalOf(metric, ValuesOf(events, metric)), events)
  {
    var values := ValuesOf(events, metric);
    RoundedMeanIsAverage(values);
    var m :| Deviation(values, m) == 0.0 && IsRounded(Round(Mean(values)), m);
    ValuesAreRecorded(events, metric, m);
  }

  /** The first recorded value of a comes before every one of b. */
  ghost predicate SeenBefore(events: seq<Event>, a: string, b: string) {
    exists k | 0 <= k < |events| :: IsVitalOf(events[k], a) && forall l | 0 <= l <= k :: !IsVitalOf(events[l], b)
  }

  lemma {:induction false} RecordedIsSeen(events: seq<Event>, metric: string)
    ensures metric in Metrics(events) <==> exists k | 0 <= k < |events| :: IsVitalOf(events[k], metric)
    decreases |events|
  {
    if events != [] {
      var n := |events| - 1;
      RecordedIsSeen(events[..n], metric);
      assert events == events[..n] + [events[n]];
      if k :| 0 <= k < n && IsVitalOf(events[..n][k], metric) { assert IsVitalOf(events[k], metric); }
      if k :| 0 <= k < |events| && IsVitalOf(events[k], metric) {
        if k < n { assert IsVitalOf(events[..n][k], metric); }
      }
    }
  }

  lemma SeenBeforeLater(events: seq<Event>, n: nat, a: string, b: string)
    requires n <= |events| && SeenBefore(events[..n], a, b)
    ensures SeenBefore(events, a, b)
  {
    var k :| 0 <= k < n && IsVitalOf(events[..n][k], a) && forall l | 0 <= l <= k :: !IsVitalOf(events[..n][l], b);
    assert IsVitalOf(events[k], a);
    forall l | 0 <= l <= k ensures !IsVitalOf(events[l], b) { assert !IsVitalOf(events[..n][l], b); }
  }

  /** The metrics come in the order in which a value of each is first seen. */
  lemma {:induction false} MetricsInOrder(events: seq<Event>, i: nat, j: nat)
    requires i < j < |Metrics(events)|
    ensures SeenBefore(events, Metrics(events)[i], Metrics(events)[j])
    decreases |events|
  {
    var n := |events| - 1;
    var prefix := events[..n];
    var a, b := Metrics(events)[i], Metrics(events)[j];
    if j < |Metrics(prefix)| {
      MetricsInOrder(prefix, i, j);
    } else {
      RecordedIsSeen(prefix, a);
      RecordedIsSeen(prefix, b);
      assert a in Metrics(prefix) && b !in Metrics(prefix);
    }
    SeenBeforeLater(events, n, a, b);
  }

  /** Summaries of the metrics, in their order, come in the order first seen, and leave none out. */
  lemma SummariesInOrder(events: seq<Event>, r: seq<Vital>)
    requires |r| == |Metrics(events)| && forall i | 0 <= i < |r| :: r[i].metric == Metrics(events)[i]
    ensures InOrder(events, r) && Covers(events, r)
  {
    forall i, j | 0 <= i < j < |r| ensures SeenBefore(events, r[i].metric, r[j].metric) {
      MetricsInOrder(events, i, j);
    }
    forall k, metric | 0 <= k < |events| && IsVitalOf(events[k], metric)
      ensures exists i | 0 <= i < |r| :: r[i].metric == metric
    {
      RecordedIsSeen(events, metric);
      var i :| 0 <= i < |r| && Metrics(events)[i] == metric;
      assert r[i].metric == metric;
    }
  }

  ghost predicate InOrder(events: seq<Event>, r: seq<Vital>) {
    forall i, j | 0 <= i < j < |r| :: SeenBefore(events, r[i].metric, r[j].metric)
  }

  /** Every metric with a recorded value has a summary. */
  ghost predicate Covers(events: seq<Event>, r: seq<Vital>) {
    forall k, metric | 0 <= k < |events| && IsVitalOf(events[k], metric) ::
      exists i | 0 <= i < |r| :: r[i].metric == metric
  }

  /**
    Groups in a map that keeps its insertion order, then averages each group: every recorded metric is
    summarized once, in the order in which the metrics are first seen.
   */
  method SummarizeWebVitals(events: seq<Event>) returns (r: seq<Vital>)
    ensures forall i | 0 <= i < |r| :: Summarizes(r[i], events)
    ensures InOrder(events, r) && Covers(events, r)
  {
    var byMetric: map<string, seq<real>> := map[];
    var order: seq<string> := [];
    for i := 0 to |events|
      invariant order == Metrics(events[..i])
      invariant forall m :: m in byMetric <==> m in order
      invariant forall m | m in byMetric :: byMetric[m] == ValuesOf(events[..i], m)
    {
      assert events[..i + 1][..i] == events[..i];
      MetricsAreThoseRecorded(events[..i]);
      var event := events[i];
      if !IsVital(event) { continue; }
      var metric := event.metric.value;
      var values := if metric in byMetric then byMetric[metric] else [];
      if metric !in byMetric { order := order + [metric]; }
      byMetric := byMetric[metric := values + [event.value.value]];
    }
    assert events[..|events|] == events;
    MetricsAreThoseRecorded(events);

    r := [];
    for i := 0 to |order|
      invariant |r| == i && forall k | 0 <= k < i :: r[k].metric == order[k] && Summarizes(r[k], events)
    {
      VitalSummarizes(events, order[i]);
      r := r + [VitalOf(order[i], byMetric[order[i]])];
    }
    SummariesInOrder(events, r);
  }

  function SumOfGroups(metrics: seq<string>, events: seq<Event>): nat {
    if metrics == [] then 0 else |ValuesOf(events, metrics[0])| + SumOfGroups(metrics[1..], events)
  }

  lemma {:induction false} SumOfGroupsStep(metrics: seq<string>, events: seq<Event>)
    requires events != [] && Distinct(metrics)
    ensures var last := events[|events| - 1];
      SumOfGroups(metrics, events) == SumOfGroups(metrics, events[..|events| - 1])
        + if IsVital(last) && last.metric.value in metrics then 1 else 0
    decreases |metrics|
  {
    if metrics != [] {
      assert metrics == [metrics[0]] + metrics[1..];
      SumOfGroupsStep(metrics[1..], events);
    }
  }

  lemma {:induction false} SumOfGroupsAppend(a: seq<string>, m: string, events: seq<Event>)
    ensures SumOfGroups(a + [m], events) == SumOfGroups(a, events) + |ValuesOf(events, m)|
    decreases |a|
  {
    if a != [] {
      assert (a + [m])[1..] == a[1..] + [m];
      SumOfGroupsAppend(a[1..], m, events);
    }
  }

  /** The counts of the groups add up to the recorded web vitals. */
  lemma {:induction false} GroupsCoverVitals(events: seq<Event>)
    ensures SumOfGroups(Metrics(events), events) == CountVitals(events)
    decreases |events|
  {
    if events != [] {
      var prefix := events[..|events| - 1];
      GroupsCoverVitals(prefix);
      MetricsAreThoseRecorded(prefix);
      SumOfGroupsStep(Metrics(prefix), events);
      if Metrics(events) != Metrics(prefix) {
        SumOfGroupsAppend(Metrics(prefix), events[|events| - 1].metric.value, events);
      }
    }
  }

  lemma {:induction false} SumBounds(values: seq<real>, lo: real, hi: real)
    requires forall v | v in values :: lo <= v <= hi
    ensures lo * |values| as real <= Sum(values) <= hi * |values| as real
    decreases |values|
  {
    if values != [] {
      var n := |values| - 1;
      assert values[n] in values && forall v | v in values[..n] :: v in values;
      SumBounds(values[..n], lo, hi);
      assert lo * (n + 1) as real == lo * n as real + lo;
      assert hi * (n + 1) as real == hi * n as real + hi;
    }
  }

  lemma TimesPositive(a: real, b: real, n: real)
    requires n > 0.0
    ensures a <= b <==> a * n <= b * n
  {
    if a <= b { assert (b - a) * n >= 0.0; } else { assert (a - b) * n > 0.0; }
  }

  lemma MeanBounds(values: seq<real>, lo: real, hi: real)
    requires values != [] && forall v | v in values :: lo <= v <= hi
    ensures lo <= Mean(values) <= hi
  {
    SumBounds(values, lo, hi);
    var n := |values| as real;
    var m := Mean(values);
    assert m * n == Sum(values);
    TimesPositive(lo, m, n);
    TimesPositive(m, hi, n);
  }

  /** Each reported average is within 0.0005 of the exact mean, which lies between the least and the greatest value. */
  lemma VitalAverage(metric: string, values: seq<real>, lo: real, hi: real)
    requires values != [] && forall v | v in values :: lo <= v <= hi
    ensures var v := VitalOf(metric, values);
      && Mean(values) - 0.0005 <= v.average <= Mean(values) + 0.0005
      && lo <= Mean(values) <= hi && v.count == |values|
  {
    RoundIsClose(Mean(values));
    MeanBounds(values, lo, hi);
  }

  // ----- the survey score -----

  datatype SusError = BadAnswers

  predicate SusAnswersOk(answers: seq<int>) {
    |answers| == 10 && forall a | a in answers :: 1 <= a <= 5
  }

  /** Answers at even positions score upwards, those at odd positions downwards. */
  function SusTotal(answers: seq<int>): int {
    if answers == [] then 0 else
    var n := |answers| - 1;
    SusTotal(answers[..n]) + if n % 2 == 0 then answers[n] - 1 else 5 - answers[n]
  }

  function CalculateSusScore(answers: seq<int>): Result<real, SusError> {
    if SusAnswersOk(answers) then Ok(Round(SusTotal(answers) as real * 2.5)) else Err(BadAnswers)
  }

  lemma {:induction false} SusTotalBounds(answers: seq<int>)
    requires forall a | a in answers :: 1 <= a <= 5
    ensures 0 <= SusTotal(answers) <= 4 * |answers|
    decreases |answers|
  {
    if answers != [] {
      var n := |answers| - 1;
      assert answers[n] in answers && forall a | a in answers[..n] :: a in answers;
      SusTotalBounds(answers[..n]);
    }
  }

  lemma SusTotalOfTen(a: seq<int>)
    requires |a| == 10
    ensures SusTotal(a) == 20 + (a[0] + a[2] + a[4] + a[6] + a[8]) - (a[1] + a[3] + a[5] + a[7] + a[9])
  {
    assert a[..9][..8] == a[..8] && a[..8][..7] == a[..7] && a[..7][..6] == a[..6] && a[..6][..5] == a[..5];
    assert a[..5][..4] == a[..4] && a[..4][..3] == a[..3] && a[..3][..2] == a[..2] && a[..2][..1] == a[..1];
    assert SusTotal(a[..1]) == a[0] - 1 by { assert a[..1][..0] == []; }
    assert SusTotal(a[..3]) == SusTotal(a[..1]) + 5 - a[1] + a[2] - 1;
    assert SusTotal(a[..5]) == SusTotal(a[..3]) + 5 - a[3] + a[4] - 1;
    assert SusTotal(a[..7]) == SusTotal(a[..5]) + 5 - a[5] + a[6] - 1;
    assert SusTotal(a[..9]) == SusTotal(a[..7]) + 5 - a[7] + a[8] - 1;
  }

  /** Rounding leaves a score alone, since it is a multiple of one half; it lies between 0 and 100. */
  lemma SusScoreInRange(answers: seq<int>)
    ensures CalculateSusScore(answers).Ok? <==> SusAnswersOk(answers)
    ensures CalculateSusScore(answers).Ok? ==>
      CalculateSusScore(answers).value == SusTotal(answers) as real * 2.5
      && 0.0 <= CalculateSusScore(answers).value <= 100.0
  {
    if SusAnswersOk(answers) {
      SusTotalBounds(answers);
      var t := SusTotal(answers);
      assert t as real * 2.5 * 1000.0 == (t * 2500) as real;
      assert RoundWhole((t * 2500) as real) == t * 2500;
    }
  }

  function AverageScore(scores: seq<real>): Option<real> {
    if scores == [] then None else Some(Round(Mean(scores)))
  }

  /** The average over any number of surveys stays between 0 and 100. */
  lemma AverageScoreInRange(scores: seq<real>)
    requires forall s | s in scores :: 0.0 <= s <= 100.0
    ensures AverageScore(scores).Some? <==> scores != []
    ensures AverageScore(scores).Some? ==> 0.0 <= AverageScore(scores).value <= 100.0
    ensures AverageScore(scores).Some? ==> IsAverage(AverageScore(scores).value, scores)
  {
    if scores != [] {
      RoundedMeanIsAverage(scores);
      MeanBounds(scores, 0.0, 100.0);
      RoundIsMonotone(0.0, Mean(scores) * 1000.0);
      RoundIsMonotone(Mean(scores) * 1000.0, 100000.0);
    }
  }
}
