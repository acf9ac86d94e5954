/** Serial runs of any state machine: what each allowed step keeps, every run of such steps keeps. */
module Runs {
  /** The state after the first i steps. */
  function After<S, R>(next: (S, R) -> S, s: S, steps: seq<R>, i: nat): S
    requires i <= |steps|
  {
    if i == 0 then s else next(After(next, s, steps, i - 1), steps[i - 1])
  }

  /** Each step is allowed in the state in which it is taken. */
  ghost predicate Allowed<S(!new), R(!new)>(next: (S, R) -> S, ok: (S, R) -> bool, s: S, steps: seq<R>) {
    forall k: nat | k < |steps| :: ok(After(next, s, steps, k), steps[k])
  }

  /** A step allowed in a state where the invariant holds leads to another such state. */
  ghost predicate Keeps<S(!new), R(!new)>(next: (S, R) -> S, inv: S -> bool, ok: (S, R) -> bool) {
    forall s, r | inv(s) && ok(s, r) :: inv(next(s, r))
  }

  /** Such a step relates the two states, in a way that composes. */
  ghost predicate Relates<S(!new), R(!new)>(
      next: (S, R) -> S, inv: S -> bool, ok: (S, R) -> bool, rel: (S, S) -> bool)
  {
    && (forall s, r | inv(s) && ok(s, r) :: rel(s, next(s, r)))
    && (forall s :: rel(s, s))
    && (forall s, t, u | rel(s, t) && rel(t, u) :: rel(s, u))
  }

  lemma {:induction false} Always<S(!new), R(!new)>(
      next: (S, R) -> S, inv: S -> bool, ok: (S, R) -> bool, s: S, steps: seq<R>, i: nat)
    requires i <= |steps| && inv(s) && Keeps(next, inv, ok) && Allowed(next, ok, s, steps)
    ensures inv(After(next, s, steps, i))
    decreases i
  {
    if i > 0 {
      Always(next, inv, ok, s, steps, i - 1);
      assert ok(After(next, s, steps, i - 1), steps[i - 1]);
    }
  }

  lemma {:induction false} Between<S(!new), R(!new)>(
      next: (S, R) -> S, inv: S -> bool, ok: (S, R) -> bool, rel: (S, S) -> bool,
      s: S, steps: seq<R>, i: nat, j: nat)
    requires i <= j <= |steps| && inv(s) && Keeps(next, inv, ok) && Relates(next, inv, ok, rel)
    requires Allowed(next, ok, s, steps)
    ensures rel(After(next, s, steps, i), After(next, s, steps, j))
    decreases j
  {
    if i < j {
      Between(next, inv, ok, rel, s, steps, i, j - 1);
      Always(next, inv, ok, s, steps, j - 1);
      assert rel(After(next, s, steps, j - 1), next(After(next, s, steps, j - 1), steps[j - 1]));
    }
  }

  /**
    When a step keeps a property exactly if a condition holds of it, a run keeps the property
    throughout exactly if the condition holds of every step.
   */
  lemma AlwaysIff<S(!new), R(!new)>(
      next: (S, R) -> S, inv: S -> bool, prop: S -> bool, ok: (S, R) -> bool, s: S, steps: seq<R>)
    requires inv(s) && prop(s) && forall t, r | inv(t) :: inv(next(t, r))
    requires forall t, r | inv(t) && prop(t) :: prop(next(t, r)) <==> ok(t, r)
    ensures (forall i: nat | i <= |steps| :: prop(After(next, s, steps, i))) <==> Allowed(next, ok, s, steps)
  {
    var both := (t: S) => inv(t) && prop(t);
    var any := (t: S, r: R) => true;
    if Allowed(next, ok, s, steps) {
      forall i: nat | i <= |steps| ensures prop(After(next, s, steps, i)) {
        Always(next, both, ok, s, steps, i);
      }
    } else {
      var k: nat :| k < |steps| && !ok(After(next, s, steps, k), steps[k]);
      Always(next, inv, any, s, steps, k);
      var t := After(next, s, steps, k);
      assert prop(t) ==> !prop(next(t, steps[k]));
      assert After(next, s, steps, k + 1) == next(t, steps[k]);
    }
  }

  /** Some step from i on and before j is such an event in the state in which it is taken. */
  ghost predicate Occurs<S(!new), R(!new)>(
      next: (S, R) -> S, event: (S, R) -> bool, s: S, steps: seq<R>, i: nat, j: nat)
  {
    exists k: nat :: i <= k < j <= |steps| && event(After(next, s, steps, k), steps[k])
  }

  /** What only events bring about, and nothing undoes, holds later exactly if it held before or an event occurred. */
  lemma {:induction false} BecomesIff<S(!new), R(!new)>(
      next: (S, R) -> S, inv: S -> bool, prop: S -> bool, event: (S, R) -> bool,
      s: S, steps: seq<R>, i: nat, j: nat)
    requires i <= j <= |steps| && inv(After(next, s, steps, i))
    requires forall t, r | inv(t) :: inv(next(t, r)) && (prop(next(t, r)) <==> prop(t) || event(t, r))
    ensures inv(After(next, s, steps, j))
    ensures prop(After(next, s, steps, j))
      <==> prop(After(next, s, steps, i)) || Occurs(next, event, s, steps, i, j)
    decreases j
  {
    if i < j {
      BecomesIff(next, inv, prop, event, s, steps, i, j - 1);
      var t := After(next, s, steps, j - 1);
      assert prop(next(t, steps[j - 1])) <==> prop(t) || event(t, steps[j - 1]);
      if Occurs(next, event, s, steps, i, j) {
        var k: nat :| i <= k < j && event(After(next, s, steps, k), steps[k]);
        assert k == j - 1 || Occurs(next, event, s, steps, i, j - 1);
      }
    }
  }

  lemma {:induction false} AfterPrefix<S(!new), R(!new)>(next: (S, R) -> S, s: S, steps: seq<R>, more: seq<R>, i: nat)
    requires i <= |steps|
    ensures After(next, s, steps + more, i) == After(next, s, steps, i)
    decreases i
  {
    if i > 0 { AfterPrefix(next, s, steps, more, i - 1); }
  }

  lemma {:induction false} AfterConcat<S(!new), R(!new)>(next: (S, R) -> S, s: S, steps: seq<R>, more: seq<R>, i: nat)
    requires i <= |more|
    ensures After(next, s, steps + more, |steps| + i) == After(next, After(next, s, steps, |steps|), more, i)
    decreases i
  {
    if i == 0 {
      AfterPrefix(next, s, steps, more, |steps|);
    } else {
      AfterConcat(next, s, steps, more, i - 1);
    }
  }

  /** A run can be prolonged by a run from where it ends. */
  lemma Prolong<S(!new), R(!new)>(next: (S, R) -> S, ok: (S, R) -> bool, s: S, steps: seq<R>, more: seq<R>)
    requires Allowed(next, ok, s, steps) && Allowed(next, ok, After(next, s, steps, |steps|), more)
    ensures Allowed(next, ok, s, steps + more)
    ensures After(next, s, steps + more, |steps + more|)
      == After(next, After(next, s, steps, |steps|), more, |more|)
  {
    var all := steps + more;
    AfterConcat(next, s, steps, more, |more|);
    forall k: nat | k < |all| ensures ok(After(next, s, all, k), all[k]) {
      if k < |steps| {
        AfterPrefix(next, s, steps, more, k);
        assert ok(After(next, s, steps, k), steps[k]);
      } else {
        AfterConcat(next, s, steps, more, k - |steps|);
        assert ok(After(next, After(next, s, steps, |steps|), more, k - |steps|), more[k - |steps|]);
      }
    }
  }

  /** Where each state of a chain has a plan that leads to the next one, a run leads to the last. */
  lemma Chain<S(!new), R(!new)>(
      next: (S, R) -> S, ok: (S, R) -> bool, good: (S, nat) -> bool, plan: (S, nat) -> seq<R>, s: S, n: nat)
    returns (steps: seq<R>)
    requires good(s, 0)
    requires forall t, i: nat | i < n && good(t, i) ::
      Allowed(next, ok, t, plan(t, i)) && good(After(next, t, plan(t, i), |plan(t, i)|), i + 1)
    ensures Allowed(next, ok, s, steps) && good(After(next, s, steps, |steps|), n)
  {
    steps := [];
    for i := 0 to n
      invariant Allowed(next, ok, s, steps) && good(After(next, s, steps, |steps|), i)
    {
      var t := After(next, s, steps, |steps|);
      Prolong(next, ok, s, steps, plan(t, i));
      steps := steps + plan(t, i);
    }
  }
}
