/** The rule-based fallback ranking of root causes (src/ai/ai.service.ts:433-482). */
module Ranking {
  import opened Common
  import opened Sorting

  datatype Anomaly = Anomaly(id: string, score: real, metricName: string)

  datatype Dependency = Dependency(id: string, criticality: string)

  datatype Kind = FromAnomaly | FromDependency

  datatype Candidate = Candidate(kind: Kind, confidence: real, evidenceId: string, metricName: Option<string>)

  function AnomalyCandidates(anomalies: seq<Anomaly>): (r: seq<Candidate>)
    ensures |r| == |anomalies|
  {
    seq(|anomalies|, i requires 0 <= i < |anomalies| =>
      Candidate(FromAnomaly, anomalies[i].score, anomalies[i].id, Some(anomalies[i].metricName)))
  }

  function DependencyCandidates(dependencies: seq<Dependency>): seq<Candidate> {
    if dependencies == [] then [] else
    var d := dependencies[0];
    (if d.criticality == "critical" || d.criticality == "high"
     then [Candidate(FromDependency, if d.criticality == "critical" then 0.8 else 0.65, d.id, None)]
     else [])
      + DependencyCandidates(dependencies[1..])
  }

  function Candidates(anomalies: seq<Anomaly>, dependencies: seq<Dependency>): seq<Candidate> {
    AnomalyCandidates(anomalies) + DependencyCandidates(dependencies)
  }

  /** Sorting by this key puts the greatest confidence first. */
  function Descending(c: Candidate): real {
    -c.confidence
  }

  function Take<T>(s: seq<T>, k: nat): seq<T> {
    if k < |s| then s[..k] else s
  }

  function PlaceholderFor(serviceId: string): Candidate {
    Candidate(FromAnomaly, 0.4, serviceId, Some("unknown"))
  }

  function Ranked(serviceId: string, all: seq<Candidate>, k: nat): seq<Candidate> {
    var kept := Take(Sort(Descending, all), k);
    if kept == [] then [PlaceholderFor(serviceId)] else kept
  }

  /** The kept candidates followed by the dropped ones are the one stable descending order of all of them. */
  ghost predicate IsTop(all: seq<Candidate>, kept: seq<Candidate>, dropped: seq<Candidate>, k: nat) {
    && IsStableSort(Descending, all, kept + dropped)
    && multiset(kept) + multiset(dropped) == multiset(all)
    && |kept| == (if |all| < k then |all| else k)
    && (forall a, b | a in kept && b in dropped :: a.confidence >= b.confidence)
    && (forall i, j | 0 <= i < j < |kept| :: kept[i].confidence >= kept[j].confidence)
  }

  /**
    For any candidates and any k of at least one, the ranking holds the k of greatest confidence, or
    all when there are fewer, greatest first and ties in their original order; no dropped candidate
    beats a kept one. Without candidates it holds one placeholder.
   */
  lemma RankingIsTop(serviceId: string, all: seq<Candidate>, k: nat) returns (dropped: seq<Candidate>)
    requires k >= 1
    ensures all != [] ==> IsTop(all, Ranked(serviceId, all, k), dropped, k)
    ensures all == [] ==> Ranked(serviceId, all, k) == [PlaceholderFor(serviceId)]
    ensures Ranked(serviceId, all, k) != []
  {
    var sorted := Sort(Descending, all);
    SortIsStable(Descending, all);
    var n := if k < |all| then k else |all|;
    dropped := sorted[n..];
    if all != [] {
      TopOfSorted(all, sorted, k, n);
      assert Ranked(serviceId, all, k) == sorted[..n];
    }
  }

  lemma TopOfSorted(all: seq<Candidate>, sorted: seq<Candidate>, k: nat, n: nat)
    requires IsStableSort(Descending, all, sorted) && multiset(sorted) == multiset(all) && |sorted| == |all|
    requires n == if k < |all| then k else |all|
    ensures IsTop(all, sorted[..n], sorted[n..], k)
  {
    SplitIsTop(sorted, n);
    assert sorted[..n] + sorted[n..] == sorted;
  }

  lemma SplitIsTop(sorted: seq<Candidate>, n: nat)
    requires Ordered(Descending, sorted) && n <= |sorted|
    ensures forall a, b | a in sorted[..n] && b in sorted[n..] :: a.confidence >= b.confidence
    ensures forall i, j | 0 <= i < j < n :: sorted[i].confidence >= sorted[j].confidence
  {
    forall i, j | 0 <= i < j < |sorted| ensures sorted[i].confidence >= sorted[j].confidence {
      assert Descending(sorted[i]) <= Descending(sorted[j]);
    }
  }

  /** Only dependencies of high or critical criticality are candidates, the critical ones with more confidence. */
  lemma {:induction false} DependencyCandidatesAre(dependencies: seq<Dependency>, c: Candidate)
    ensures c in DependencyCandidates(dependencies) <==>
      exists d | d in dependencies ::
        && (d.criticality == "critical" || d.criticality == "high")
        && c == Candidate(FromDependency, if d.criticality == "critical" then 0.8 else 0.65, d.id, None)
    decreases |dependencies|
  {
    if dependencies != [] {
      DependencyCandidatesAre(dependencies[1..], c);
      assert dependencies == [dependencies[0]] + dependencies[1..];
    }
  }

  /** The candidates of one list of dependencies come before those of what follows it. */
  lemma {:induction false} DependencyOrder(first: seq<Dependency>, rest: seq<Dependency>)
    ensures DependencyCandidates(first + rest) == DependencyCandidates(first) + DependencyCandidates(rest)
    decreases |first|
  {
    if first == [] {
      assert first + rest == rest;
    } else {
      assert (first + rest)[1..] == first[1..] + rest;
      DependencyOrder(first[1..], rest);
    }
  }

  /** The candidate comes from this anomaly, with its score for a confidence. */
  predicate IsOfAnomaly(c: Candidate, a: Anomaly) {
    c.kind.FromAnomaly? && c.confidence == a.score && c.evidenceId == a.id && c.metricName == Some(a.metricName)
  }

  /** The candidate comes from this dependency, which is of high or critical criticality. */
  predicate IsOfDependency(c: Candidate, d: Dependency) {
    && c.kind.FromDependency? && c.evidenceId == d.id && c.metricName.None?
    && ((d.criticality == "critical" && c.confidence == 0.8) || (d.criticality == "high" && c.confidence == 0.65))
  }

  ghost predicate OfSomeAnomaly(c: Candidate, anomalies: seq<Anomaly>) {
    exists a | a in anomalies :: IsOfAnomaly(c, a)
  }

  ghost predicate OfSomeDependency(c: Candidate, dependencies: seq<Dependency>) {
    exists d | d in dependencies :: IsOfDependency(c, d)
  }

  lemma DependencyCandidateIff(dependencies: seq<Dependency>, c: Candidate)
    ensures c in DependencyCandidates(dependencies) <==> OfSomeDependency(c, dependencies)
  {
    DependencyCandidatesAre(dependencies, c);
    forall d | d in dependencies
      ensures IsOfDependency(c, d) <==> (
        && (d.criticality == "critical" || d.criticality == "high")
        && c == Candidate(FromDependency, if d.criticality == "critical" then 0.8 else 0.65, d.id, None))
    {
    }
  }

  /** The anomalies come first, each at its place, and then the dependencies that count. */
  lemma CandidatesAre(anomalies: seq<Anomaly>, dependencies: seq<Dependency>)
    ensures var all := Candidates(anomalies, dependencies);
      && |anomalies| <= |all|
      && (forall i | 0 <= i < |anomalies| :: IsOfAnomaly(all[i], anomalies[i]))
      && (forall c :: c in all[|anomalies|..] <==> OfSomeDependency(c, dependencies))
  {
    assert Candidates(anomalies, dependencies)[|anomalies|..] == DependencyCandidates(dependencies);
    forall c ensures c in DependencyCandidates(dependencies) <==> OfSomeDependency(c, dependencies) {
      DependencyCandidateIff(dependencies, c);
    }
  }

  lemma NoSignalNoCandidate(anomalies: seq<Anomaly>, dependencies: seq<Dependency>)
    ensures Candidates(anomalies, dependencies) == [] <==>
      anomalies == [] && forall d | d in dependencies :: d.criticality !in {"critical", "high"}
  {
    CandidatesAre(anomalies, dependencies);
    var all := Candidates(anomalies, dependencies);
    if d :| d in dependencies && d.criticality in {"critical", "high"} {
      var c := Candidate(FromDependency, if d.criticality == "critical" then 0.8 else 0.65, d.id, None);
      assert IsOfDependency(c, d) && OfSomeDependency(c, dependencies);
    }
    if all != [] && anomalies == [] {
      assert all[0] in all[|anomalies|..];
    }
  }

  /** Every kept candidate has this confidence or more. */
  predicate Beaten(kept: seq<Candidate>, confidence: real) {
    forall c | c in kept :: c.confidence >= confidence
  }

  ghost predicate KeepsAnomaly(kept: seq<Candidate>, a: Anomaly) {
    exists c | c in kept :: IsOfAnomaly(c, a)
  }

  /** What the ranking is of the anomalies and the dependencies it is made from. */
  ghost predicate IsRanking(kept: seq<Candidate>, anomalies: seq<Anomaly>, dependencies: seq<Dependency>, k: nat) {
    && |kept| <= k
    && (forall i, j | 0 <= i < j < |kept| :: kept[i].confidence >= kept[j].confidence)
    && (forall c | c in kept :: OfSomeAnomaly(c, anomalies) || OfSomeDependency(c, dependencies))
    && (forall a | a in anomalies :: KeepsAnomaly(kept, a) || Beaten(kept, a.score))
    && (forall c | OfSomeDependency(c, dependencies) :: c in kept || Beaten(kept, c.confidence))
    && (|kept| < k ==>
          && (forall a | a in anomalies :: KeepsAnomaly(kept, a))
          && (forall c | OfSomeDependency(c, dependencies) :: c in kept))
  }

  /** Only candidates are kept, and each of them is, or is beaten. */
  lemma KeptOrBeaten(serviceId: string, all: seq<Candidate>, k: nat)
    requires k >= 1 && all != []
    ensures var kept := Ranked(serviceId, all, k);
      && |kept| <= k
      && (forall i, j | 0 <= i < j < |kept| :: kept[i].confidence >= kept[j].confidence)
      && (forall c | c in kept :: c in all)
      && (forall c | c in all :: c in kept || Beaten(kept, c.confidence))
      && (|kept| < k ==> forall c | c in all :: c in kept)
  {
    var kept := Ranked(serviceId, all, k);
    var dropped := RankingIsTop(serviceId, all, k);
    forall c ensures c in all <==> c in kept || c in dropped {
      assert c in all <==> c in multiset(all);
      assert c in multiset(kept) + multiset(dropped) <==> c in kept || c in dropped;
    }
    if |kept| < k {
      assert |multiset(kept) + multiset(dropped)| == |kept| + |dropped|;
      assert |multiset(all)| == |all|;
    }
  }

  lemma SignalsAreCandidates(anomalies: seq<Anomaly>, dependencies: seq<Dependency>)
    ensures var all := Candidates(anomalies, dependencies);
      && (forall c | c in all :: OfSomeAnomaly(c, anomalies) || OfSomeDependency(c, dependencies))
      && (forall a | a in anomalies :: KeepsAnomaly(all, a))
      && (forall c | OfSomeDependency(c, dependencies) :: c in all)
  {
    var all := Candidates(anomalies, dependencies);
    CandidatesAre(anomalies, dependencies);
    forall c | c in all ensures OfSomeAnomaly(c, anomalies) || OfSomeDependency(c, dependencies) {
      var i :| 0 <= i < |all| && all[i] == c;
      if i < |anomalies| { assert IsOfAnomaly(c, anomalies[i]); } else { assert c in all[|anomalies|..]; }
    }
    forall a | a in anomalies ensures KeepsAnomaly(all, a) {
      var i :| 0 <= i < |anomalies| && anomalies[i] == a;
      assert all[i] in all;
    }
  }

  lemma KeptIsRanking(serviceId: string, anomalies: seq<Anomaly>, dependencies: seq<Dependency>, k: nat)
    requires k >= 1 && Candidates(anomalies, dependencies) != []
    ensures IsRanking(Ranked(serviceId, Candidates(anomalies, dependencies), k), anomalies, dependencies, k)
  {
    var all := Candidates(anomalies, dependencies);
    var kept := Ranked(serviceId, all, k);
    KeptOrBeaten(serviceId, all, k);
    SignalsAreCandidates(anomalies, dependencies);
    forall a | a in anomalies
      ensures KeepsAnomaly(kept, a) || Beaten(kept, a.score)
      ensures |kept| < k ==> KeepsAnomaly(kept, a)
    {
      var c :| c in all && IsOfAnomaly(c, a);
      assert c in kept || Beaten(kept, c.confidence);
    }
  }

  /**
    The ranking of the five best signals, or of as many as are asked for: a signal is kept, or no kept
    one has less confidence. Where there is none, a placeholder says so.
   */
  method HeuristicPredict(serviceId: string, anomalies: seq<Anomaly>, dependencies: seq<Dependency>, topK: Option<nat>)
    returns (candidates: seq<Candidate>)
    requires topK.Some? ==> topK.value >= 1
    ensures candidates == Ranked(serviceId, Candidates(anomalies, dependencies), if topK.Some? then topK.value else 5)
    ensures var noSignal := anomalies == [] && forall d | d in dependencies :: d.criticality !in {"critical", "high"};
      if noSignal then candidates == [Candidate(FromAnomaly, 0.4, serviceId, Some("unknown"))]
      else IsRanking(candidates, anomalies, dependencies, if topK.None? then 5 else topK.value)
  {
    candidates := Take(Sort(Descending, Candidates(anomalies, dependencies)), if topK.Some? then topK.value else 5);
    if |candidates| == 0 {
      candidates := candidates + [PlaceholderFor(serviceId)];
    }
    NoSignalNoCandidate(anomalies, dependencies);
    if Candidates(anomalies, dependencies) != [] {
      KeptIsRanking(serviceId, anomalies, dependencies, if topK.Some? then topK.value else 5);
    }
  }
}
