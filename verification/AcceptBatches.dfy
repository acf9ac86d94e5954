/**
  Requests that open tokens, sent at once: which of them can accept an invitation twice, and which can
  leave an accepted invitation EXPIRED (src/invitations/invitations.service.ts:131-215).
 */
module AcceptBatches {
  import opened AcceptInterleaving
  import opened AcceptRaces
  import opened AccountRuns
  import opened Accounts
  import opened Common
  import opened Runs
  import opened Text

  // ----- requests that are sent at once -----

  /** The task, if it accepts, could be accepted alone and now. */
  predicate Acceptable(s: System, task: Task) {
    task.purpose.ToAccept? ==>
      && task.purpose.data.password == task.purpose.data.confirmPassword && !IsBlank(task.token)
      && exists inv | inv in s.db.invitations :: Opens(s.db.invitations, inv, task.token, s.clock)
  }

  ghost predicate Fresh(s: System) {
    SystemSound(s) && AllArrived(s) && forall t | 0 <= t < |s.tasks| :: Acceptable(s, s.tasks[t])
  }

  /** Other requests accept nothing. */
  predicate AcceptsNothing(s: System, m: Move) {
    m.Other? ==> !m.request.Accepts?
  }

  /** No two tasks accept the same token. */
  predicate AcceptTokensDistinct(tasks: seq<Task>) {
    forall t, k | 0 <= t < k < |tasks| && tasks[t].purpose.ToAccept? && tasks[k].purpose.ToAccept? ::
      tasks[t].token != tasks[k].token
  }

  /** Tasks keep their tokens and their purposes. */
  predicate SameTasks(tasks: seq<Task>, tasks': seq<Task>) {
    && |tasks'| == |tasks|
    && forall t | 0 <= t < |tasks| :: tasks'[t].token == tasks[t].token && tasks'[t].purpose == tasks[t].purpose
  }

  lemma NextSameTasks(s: System, m: Move)
    ensures SameTasks(s.tasks, Next(s, m).tasks)
  {
  }

  predicate SameBetween(s: System, s': System) {
    SameTasks(s.tasks, s'.tasks)
  }

  predicate AnyState(s: System) {
    true
  }

  lemma TasksStaySame(s: System, moves: seq<Move>, i: nat)
    requires i <= |moves|
    ensures SameTasks(s.tasks, After(Next, s, moves, i).tasks)
  {
    forall t: System, m: Move ensures SameBetween(t, Next(t, m)) { NextSameTasks(t, m); }
    Between(Next, AnyState, AnyMove, SameBetween, s, moves, 0, i);
  }

  // ----- accepting twice -----

  /** No schedule among requests that accept nothing accepts an invitation twice. */
  ghost predicate AlwaysOnce(s: System) {
    forall moves: seq<Move>, id: nat | Allowed(Next, AcceptsNothing, s, moves) :: !AcceptedTwice(s, moves, id)
  }

  lemma DistinctIsOrderly(s: System, m: Move)
    requires AcceptTokensDistinct(s.tasks) && AcceptsNothing(s, m)
    ensures Orderly(s, m)
  {
  }

  lemma DistinctAcceptsOnce(s: System, moves: seq<Move>, id: nat)
    requires Fresh(s) && AcceptTokensDistinct(s.tasks) && Allowed(Next, AcceptsNothing, s, moves)
    ensures !AcceptedTwice(s, moves, id)
  {
    forall k: nat | k < |moves| ensures Orderly(After(Next, s, moves, k), moves[k]) {
      TasksStaySame(s, moves, k);
      assert AcceptsNothing(After(Next, s, moves, k), moves[k]);
      DistinctIsOrderly(After(Next, s, moves, k), moves[k]);
    }
    OrderlyAcceptsOnce(s, moves, id);
  }

  /** The state in which two tasks are at the same stage. */
  function BothAt(s: System, t: nat, k: nat, stage: Stage): System
    requires t < |s.tasks| && k < |s.tasks|
  {
    AtStage(AtStage(s, t, stage), k, stage)
  }

  lemma BothFetch(s: System, t: nat, k: nat, inv: Invitation)
    requires t < |s.tasks| && k < |s.tasks| && t != k && s.tasks[t].stage.Arrived? && s.tasks[k].stage.Arrived?
    requires Fetching(s.db.invitations, s.tasks[t]) == Fetching(s.db.invitations, s.tasks[k]) == Fetched(Some(inv))
    ensures Next(Next(s, Fetch(t)), Fetch(k)) == BothAt(s, t, k, Fetched(Some(inv)))
  {
    assert Next(s, Fetch(t)) == AtStage(s, t, Fetched(Some(inv)));
  }

  lemma BothCheck(s: System, t: nat, k: nat, inv: Invitation)
    requires t < |s.tasks| && k < |s.tasks| && t != k
    requires s.tasks[t].stage == s.tasks[k].stage == Fetched(Some(inv))
    requires s.tasks[t].purpose.ToAccept? && s.tasks[k].purpose.ToAccept? && Judged(Some(inv), s.clock) == Usable(inv)
    ensures Next(Next(s, Check(t)), Check(k)) == BothAt(s, t, k, Looked(inv))
  {
    assert Next(s, Check(t)) == AtStage(s, t, Looked(inv));
  }

  /** A task that is through its check, in two moves. */
  lemma FinishOne(s: System, t: nat, inv: Invitation)
    requires t < |s.tasks| && s.tasks[t].stage == Looked(inv) && s.tasks[t].purpose.ToAccept?
    requires inv.userId < |s.db.users|
    ensures var active := Next(s, Activate(t));
      && Enabled(active, Mark(t)) && active.tasks[t].stage == Active(inv.id)
      && active.db.invitations == s.db.invitations && |active.db.users| == |s.db.users| && active.clock == s.clock
      && (forall k | 0 <= k < |s.tasks| && k != t :: active.tasks[k] == s.tasks[k]) && |active.tasks| == |s.tasks|
    ensures var done := Next(Next(s, Activate(t)), Mark(t));
      && done.db.invitations == MarkAccepted(s.db.invitations, inv.id, s.clock) && |done.db.users| == |s.db.users|
      && done.clock == s.clock && |done.tasks| == |s.tasks|
      && done.tasks[t] == s.tasks[t].(stage := Finished)
      && done.db.users[inv.userId].password == Some(Bcrypt(s.tasks[t].purpose.data.password))
      && forall k | 0 <= k < |s.tasks| && k != t :: done.tasks[k] == s.tasks[k]
  {
  }

  /** Two acceptances of one token: both read, both check, both write. */
  predicate IsDoubleAccept(moves: seq<Move>, t: nat, k: nat) {
    && |moves| == 8 && moves[0] == Fetch(t) && moves[1] == Fetch(k) && moves[2] == Check(t) && moves[3] == Check(k)
    && moves[4] == Activate(t) && moves[5] == Mark(t) && moves[6] == Activate(k) && moves[7] == Mark(k)
  }

  lemma DoubleAcceptExists(t: nat, k: nat) returns (moves: seq<Move>)
    ensures IsDoubleAccept(moves, t, k)
  {
    moves := [Fetch(t), Fetch(k), Check(t), Check(k), Activate(t), Mark(t), Activate(k), Mark(k)];
  }

  lemma EightSteps<S, R>(next: (S, R) -> S, s: S, steps: seq<R>)
    requires |steps| == 8
    ensures After(next, s, steps, 2) == next(next(s, steps[0]), steps[1])
    ensures After(next, s, steps, 4) == next(next(After(next, s, steps, 2), steps[2]), steps[3])
    ensures After(next, s, steps, 5) == next(After(next, s, steps, 4), steps[4])
    ensures After(next, s, steps, 6) == next(next(After(next, s, steps, 4), steps[4]), steps[5])
    ensures After(next, s, steps, 7) == next(After(next, s, steps, 6), steps[6])
    ensures After(next, s, steps, 8) == next(next(After(next, s, steps, 6), steps[6]), steps[7])
  {
    assert After(next, s, steps, 1) == next(s, steps[0]);
    assert After(next, s, steps, 3) == next(After(next, s, steps, 2), steps[2]);
  }

  /** What an acceptable task would read, and that it would pass its check. */
  lemma AcceptableReads(s: System, task: Task) returns (inv: Invitation)
    requires SystemSound(s) && Acceptable(s, task) && task.purpose.ToAccept?
    ensures Fetching(s.db.invitations, task) == Fetched(Some(inv)) && Judged(Some(inv), s.clock) == Usable(inv)
    ensures inv.id < |s.db.invitations| && s.db.invitations[inv.id] == inv && inv.userId < |s.db.users|
    ensures inv.tokenHash == Sha256(task.token) && inv.status.PENDING? && s.clock <= inv.expiresAt
    ensures !IsBlank(task.token)
  {
    inv :| inv in s.db.invitations && Opens(s.db.invitations, inv, task.token, s.clock);
    OpenedIsFound(s.db.invitations, inv, task.token, s.clock);
  }

  /** From where both are through their checks. */
  lemma BothFinish(s: System, t: nat, k: nat, inv: Invitation)
    requires t < |s.tasks| && k < |s.tasks| && t != k && s.tasks[t].stage == s.tasks[k].stage == Looked(inv)
    requires s.tasks[t].purpose.ToAccept? && s.tasks[k].purpose.ToAccept? && inv.userId < |s.db.users|
    ensures Accepting(Next(s, Activate(t)), Mark(t), inv.id)
    ensures var half := Next(Next(s, Activate(t)), Mark(t));
      && Accepting(Next(half, Activate(k)), Mark(k), inv.id)
      && var done := Next(Next(half, Activate(k)), Mark(k));
        && done.tasks == s.tasks[t := s.tasks[t].(stage := Finished)][k := s.tasks[k].(stage := Finished)]
        && inv.userId < |done.db.users|
        && done.db.users[inv.userId].password == Some(Bcrypt(s.tasks[k].purpose.data.password))
  {
    FinishOne(s, t, inv);
    FinishOne(Next(Next(s, Activate(t)), Mark(t)), k, inv);
  }

  lemma DoubleAcceptRuns(s: System, moves: seq<Move>, t: nat, k: nat, inv: Invitation)
    requires IsDoubleAccept(moves, t, k) && t < |s.tasks| && k < |s.tasks| && t != k
    requires s.tasks[t].stage.Arrived? && s.tasks[k].stage.Arrived?
    requires s.tasks[t].purpose.ToAccept? && s.tasks[k].purpose.ToAccept? && inv.userId < |s.db.users|
    requires Fetching(s.db.invitations, s.tasks[t]) == Fetching(s.db.invitations, s.tasks[k]) == Fetched(Some(inv))
    requires Judged(Some(inv), s.clock) == Usable(inv)
    ensures Accepting(After(Next, s, moves, 5), moves[5], inv.id)
    ensures Accepting(After(Next, s, moves, 7), moves[7], inv.id)
    ensures var done := After(Next, s, moves, 8);
      && done.tasks == s.tasks[t := s.tasks[t].(stage := Finished)][k := s.tasks[k].(stage := Finished)]
      && inv.userId < |done.db.users|
      && done.db.users[inv.userId].password == Some(Bcrypt(s.tasks[k].purpose.data.password))
  {
    EightSteps(Next, s, moves);
    BothFetch(s, t, k, inv);
    var fetched := BothAt(s, t, k, Fetched(Some(inv)));
    BothCheck(fetched, t, k, inv);
    BothFinish(BothAt(fetched, t, k, Looked(inv)), t, k, inv);
  }

  lemma NoOthersAllowed(s: System, moves: seq<Move>)
    requires forall i | 0 <= i < |moves| :: !moves[i].Other?
    ensures Allowed(Next, AcceptsNothing, s, moves)
  {
  }

  lemma DoubleAcceptBreaksOnce(s: System, moves: seq<Move>, t: nat, k: nat, id: nat)
    requires IsDoubleAccept(moves, t, k)
    requires Accepting(After(Next, s, moves, 5), moves[5], id) && Accepting(After(Next, s, moves, 7), moves[7], id)
    ensures !AlwaysOnce(s)
  {
    NoOthersAllowed(s, moves);
    assert AcceptedTwice(s, moves, id);
  }

  /**
    Two acceptances of one token that could each go through alone can both finish; the password of the
    one that activates last is the one that stays.
   */
  lemma TwoTasksAcceptOneToken(s: System, t: nat, k: nat) returns (moves: seq<Move>, inv: Invitation)
    requires Fresh(s) && t < |s.tasks| && k < |s.tasks| && t != k && s.tasks[t].token == s.tasks[k].token
    requires s.tasks[t].purpose.ToAccept? && s.tasks[k].purpose.ToAccept?
    ensures IsDoubleAccept(moves, t, k)
    ensures Accepting(After(Next, s, moves, 5), moves[5], inv.id)
    ensures Accepting(After(Next, s, moves, 7), moves[7], inv.id)
    ensures var done := After(Next, s, moves, 8);
      && done.tasks == s.tasks[t := s.tasks[t].(stage := Finished)][k := s.tasks[k].(stage := Finished)]
      && inv.userId < |done.db.users|
      && done.db.users[inv.userId].password == Some(Bcrypt(s.tasks[k].purpose.data.password))
  {
    inv := AcceptableReads(s, s.tasks[t]);
    var inv' := AcceptableReads(s, s.tasks[k]);
    assert inv' == inv;
    moves := DoubleAcceptExists(t, k);
    DoubleAcceptRuns(s, moves, t, k, inv);
  }

  /**
    Acceptances that could each go through alone, sent at once with any other requests that accept
    nothing, accept no invitation twice under any schedule, if and only if their tokens are distinct.
   */
  lemma AcceptedOnceIffDistinct(s: System)
    requires Fresh(s)
    ensures AlwaysOnce(s) <==> AcceptTokensDistinct(s.tasks)
  {
    if AcceptTokensDistinct(s.tasks) {
      forall moves: seq<Move>, id: nat | Allowed(Next, AcceptsNothing, s, moves) ensures !AcceptedTwice(s, moves, id) {
        DistinctAcceptsOnce(s, moves, id);
      }
    } else {
      var t, k :| 0 <= t < k < |s.tasks| && s.tasks[t].purpose.ToAccept? && s.tasks[k].purpose.ToAccept?
        && s.tasks[t].token == s.tasks[k].token;
      var moves, inv := TwoTasksAcceptOneToken(s, t, k);
      DoubleAcceptBreaksOnce(s, moves, t, k, inv.id);
    }
  }

  // ----- a late EXPIRED -----

  /** The move marks as lapsed an invitation that has been used since it was read. */
  predicate Undoes(s: System, m: Move) {
    m.Lapse? && Enabled(s, m) && Used(s.db, s.tasks[m.t].stage.id)
  }

  lemma MarkExpiredKeepsSettledIff(invitations: seq<Invitation>, id: nat)
    requires Settled(invitations) && id < |invitations|
    ensures Settled(MarkExpired(invitations, id)) <==> invitations[id].usedAt.None?
  {
    var after := MarkExpired(invitations, id);
    if invitations[id].usedAt.Some? { assert after[id].usedAt.Some? && after[id].status.EXPIRED?; }
  }

  /** Of all moves, exactly these leave an invitation that has been used and is not ACCEPTED. */
  lemma SettledKeptIff(s: System, m: Move)
    requires SystemSound(s) && Settled(s.db.invitations)
    ensures Settled(Next(s, m).db.invitations) <==> !Undoes(s, m)
  {
    if m.Other? {
      ServeKeepsSettled(s.db, m.request);
    } else if m.Lapse? && Enabled(s, m) {
      assert TaskSound(s.db, s.tasks[m.t]);
      MarkExpiredKeepsSettledIff(s.db.invitations, s.tasks[m.t].stage.id);
    }
  }

  predicate LeavesAccepted(s: System, m: Move) {
    !Undoes(s, m)
  }

  ghost predicate SettledState(s: System) {
    Settled(s.db.invitations)
  }

  /**
    In an interleaving, used invitations are ACCEPTED in all states, as they are in serial runs, if and
    only if no EXPIRED is written to an invitation that was accepted after it had been read.
   */
  lemma InterleavingsAreSettledIff(s: System, moves: seq<Move>)
    requires SystemSound(s) && Settled(s.db.invitations)
    ensures (forall i: nat | i <= |moves| :: SettledState(After(Next, s, moves, i)))
      <==> Allowed(Next, LeavesAccepted, s, moves)
  {
    forall t: System, m: Move | SystemSound(t) ensures SystemSound(Next(t, m)) { NextKeeps(t, m); }
    forall t: System, m: Move | SystemSound(t) && SettledState(t)
      ensures SettledState(Next(t, m)) <==> LeavesAccepted(t, m)
    {
      SettledKeptIff(t, m);
    }
    AlwaysIff(Next, SystemSound, SettledState, LeavesAccepted, s, moves);
  }

  // ----- what keeps a late EXPIRED away: during a run -----

  /** Some task is between its check and its mark. */
  predicate Committed(task: Task) {
    task.purpose.ToAccept? && (task.stage.Looked? || task.stage.Active?)
  }

  predicate NoneCommitted(s: System, token: string) {
    forall t | 0 <= t < |s.tasks| && s.tasks[t].token == token :: !Committed(s.tasks[t])
  }

  /**
    When an invitation is found overdue, it has not been used and no acceptance of it is past its
    check; and whole acceptances do not run behind the clock.
   */
  predicate Quiet(s: System, m: Move) {
    match m
    case Check(t) =>
      Enabled(s, m) && Judged(s.tasks[t].stage.found, s.clock).Overdue? ==>
        !Used(s.db, s.tasks[t].stage.found.value.id) && NoneCommitted(s, s.tasks[t].token)
    case Other(r) => r.Accepts? ==> r.at >= s.clock
    case _ => true
  }

  /** A task about to write EXPIRED has its invitation to itself. */
  predicate Hushed(s: System, task: Task) {
    task.stage.Lapsing? && task.stage.id < |s.db.invitations| ==>
      && !Used(s.db, task.stage.id) && s.db.invitations[task.stage.id].expiresAt < s.clock
      && NoneCommitted(s, task.token)
  }

  ghost predicate AllHushed(s: System) {
    SystemSound(s) && Settled(s.db.invitations) && forall t | 0 <= t < |s.tasks| :: Hushed(s, s.tasks[t])
  }

  /** An invitation whose term is over is not taken by a whole request. */
  lemma OverdueIsNotTaken(s: System, m: Move, id: nat)
    requires SystemSound(s) && Quiet(s, m) && m.Other? && id < |s.db.invitations|
    requires s.db.invitations[id].expiresAt < s.clock
    ensures !Accepting(s, m, id)
  {
    if Accepting(s, m, id) {
      var r := m.request;
      StoredIsFound(s.db.invitations, id);
      FindUsableKeeps(s.db.invitations, r.token, r.at);
    }
  }

  lemma QuietKeepsUnused(s: System, m: Move, k: nat)
    requires AllHushed(s) && Quiet(s, m) && k < |s.tasks| && s.tasks[k].stage.Lapsing?
    ensures !Used(Next(s, m).db, s.tasks[k].stage.id)
  {
    var id := s.tasks[k].stage.id;
    assert TaskSound(s.db, s.tasks[k]) && Hushed(s, s.tasks[k]);
    NextUsesIff(s, m, id);
    if m.Other? {
      OverdueIsNotTaken(s, m, id);
    } else if m.Mark? && Enabled(s, m) {
      MarkIsOfItsToken(s, m);
    }
  }

  lemma QuietKeepsUncommitted(s: System, m: Move, k: nat)
    requires AllHushed(s) && Quiet(s, m) && k < |s.tasks| && s.tasks[k].stage.Lapsing?
    ensures NoneCommitted(Next(s, m), s.tasks[k].token)
  {
    assert TaskSound(s.db, s.tasks[k]) && Hushed(s, s.tasks[k]);
    if m.Check? && Enabled(s, m) {
      assert TaskSound(s.db, s.tasks[m.t]);
      FoundSame(s.db, s.tasks[k].stage.id, s.tasks[m.t].stage.found, s.tasks[k].token, s.tasks[m.t].token);
    }
  }

  /** A read of the same token is a read of the same invitation. */
  lemma FoundSame(db: Db, id: nat, found: Option<Invitation>, token: string, other: string)
    requires Sound(db) && IsOfToken(db, id, token) && (found.Some? ==> IsCopy(db, found.value, other))
    ensures found.Some? && token == other ==>
      found.value.id == id && found.value.expiresAt == db.invitations[id].expiresAt
  {
  }

  lemma QuietKeepsHushed(s: System, m: Move, k: nat)
    requires AllHushed(s) && Quiet(s, m) && k < |Next(s, m).tasks|
    ensures Hushed(Next(s, m), Next(s, m).tasks[k])
  {
    NextKeeps(s, m);
    assert TaskSound(s.db, s.tasks[k]) && Hushed(s, s.tasks[k]);
    if s.tasks[k].stage.Lapsing? {
      QuietKeepsUnused(s, m, k);
      QuietKeepsUncommitted(s, m, k);
      assert Persists(s.db.invitations[s.tasks[k].stage.id], Next(s, m).db.invitations[s.tasks[k].stage.id]);
    } else if Next(s, m).tasks[k].stage.Lapsing? {
      assert m == Check(k) && Judged(s.tasks[k].stage.found, s.clock).Overdue?;
    }
  }

  lemma HushedLeavesAccepted(s: System, m: Move)
    requires AllHushed(s)
    ensures !Undoes(s, m)
  {
    if m.Lapse? && Enabled(s, m) { assert TaskSound(s.db, s.tasks[m.t]) && Hushed(s, s.tasks[m.t]); }
  }

  /**
    As long as no invitation is found overdue after it has been used, or while an acceptance of it is
    past its check, used invitations are ACCEPTED in all states of every interleaving.
   */
  lemma QuietRunsAreSettled(s: System, moves: seq<Move>, i: nat)
    requires SystemSound(s) && Settled(s.db.invitations) && AllArrived(s) && i <= |moves|
    requires Allowed(Next, Quiet, s, moves)
    ensures Settled(After(Next, s, moves, i).db.invitations)
  {
    forall t: System, m: Move | AllHushed(t) && Quiet(t, m) ensures AllHushed(Next(t, m)) {
      NextKeeps(t, m);
      SettledKeptIff(t, m);
      HushedLeavesAccepted(t, m);
      forall k | 0 <= k < |Next(t, m).tasks| ensures Hushed(Next(t, m), Next(t, m).tasks[k]) {
        QuietKeepsHushed(t, m, k);
      }
    }
    Always(Next, AllHushed, Quiet, s, moves, i);
  }

  // ----- what keeps a late EXPIRED away: before the run -----

  /** No task that accepts shares its token with another task. */
  predicate AcceptsApart(tasks: seq<Task>) {
    forall t, k | 0 <= t < |tasks| && 0 <= k < |tasks| && t != k && tasks[t].purpose.ToAccept? ::
      tasks[t].token != tasks[k].token
  }

  /** No schedule among requests that accept nothing leaves a used invitation that is not ACCEPTED. */
  ghost predicate AlwaysSettled(s: System) {
    forall moves: seq<Move>, i: nat | i <= |moves| && Allowed(Next, AcceptsNothing, s, moves) ::
      Settled(After(Next, s, moves, i).db.invitations)
  }

  /** What the task has read as PENDING, or found overdue, has not been used. */
  predicate Calm(db: Db, task: Task) {
    match task.stage
    case Fetched(found) => found.Some? && found.value.status.PENDING? ==> !Used(db, found.value.id)
    case Lapsing(id) => !Used(db, id)
    case _ => true
  }

  ghost predicate AllCalm(s: System) {
    && SystemSound(s) && Settled(s.db.invitations) && AcceptsApart(s.tasks)
    && forall t | 0 <= t < |s.tasks| :: Calm(s.db, s.tasks[t])
  }

  lemma CalmLeavesAccepted(s: System, m: Move)
    requires AllCalm(s)
    ensures !Undoes(s, m)
  {
    if m.Lapse? && Enabled(s, m) { assert Calm(s.db, s.tasks[m.t]); }
  }

  /** A move uses an invitation only for the one task that has its token. */
  lemma UsedForItsTask(s: System, m: Move, k: nat, id: nat)
    requires SystemSound(s) && AcceptsApart(s.tasks) && AcceptsNothing(s, m) && k < |s.tasks|
    requires IsOfToken(s.db, id, s.tasks[k].token) && !Used(s.db, id) && !s.tasks[k].stage.Active?
    ensures !Used(Next(s, m).db, id)
  {
    NextUsesIff(s, m, id);
    MarkIsOfItsToken(s, m);
  }

  lemma UntouchedStaysCalm(s: System, m: Move, k: nat)
    requires AllCalm(s) && AcceptsNothing(s, m) && k < |s.tasks|
    requires Calm(s.db, s.tasks[k]) && TaskSound(s.db, s.tasks[k])
    ensures Calm(Next(s, m).db, s.tasks[k])
  {
    match s.tasks[k].stage
    case Fetched(found) =>
      if found.Some? && found.value.status.PENDING? { UsedForItsTask(s, m, k, found.value.id); }
    case Lapsing(id) => UsedForItsTask(s, m, k, id);
    case _ =>
  }

  lemma ReadingIsCalm(s: System, m: Move)
    requires AllCalm(s) && Enabled(s, m) && (m.Fetch? || m.Check?)
    ensures Calm(Next(s, m).db, Next(s, m).tasks[m.t])
  {
    assert Calm(s.db, s.tasks[m.t]);
    if m.Fetch? {
      var found := FindByTokenHash(s.db.invitations, Sha256(s.tasks[m.t].token));
      FoundInvitation(s.db.invitations, Sha256(s.tasks[m.t].token));
      if found.Some? { assert InvitationSound(found.value, found.value.id); }
    } else {
      assert TaskSound(s.db, s.tasks[m.t]);
    }
  }

  lemma NextKeepsCalm(s: System, m: Move, k: nat)
    requires AllCalm(s) && AcceptsNothing(s, m) && k < |Next(s, m).tasks|
    ensures Calm(Next(s, m).db, Next(s, m).tasks[k])
  {
    if Enabled(s, m) && (m == Fetch(k) || m == Check(k)) {
      ReadingIsCalm(s, m);
    } else if Next(s, m).tasks[k] == s.tasks[k] {
      assert TaskSound(s.db, s.tasks[k]) && Calm(s.db, s.tasks[k]);
      UntouchedStaysCalm(s, m, k);
    }
  }

  lemma ApartRunsAreSettled(s: System, moves: seq<Move>, i: nat)
    requires Fresh(s) && Settled(s.db.invitations) && AcceptsApart(s.tasks)
    requires i <= |moves| && Allowed(Next, AcceptsNothing, s, moves)
    ensures Settled(After(Next, s, moves, i).db.invitations)
  {
    forall t: System, m: Move | AllCalm(t) && AcceptsNothing(t, m) ensures AllCalm(Next(t, m)) {
      NextKeeps(t, m);
      NextSameTasks(t, m);
      SettledKeptIff(t, m);
      CalmLeavesAccepted(t, m);
      forall k | 0 <= k < |Next(t, m).tasks| ensures Calm(Next(t, m).db, Next(t, m).tasks[k]) {
        NextKeepsCalm(t, m, k);
      }
    }
    Always(Next, AllCalm, AcceptsNothing, s, moves, i);
  }

  /** One task accepts in time; another has read the invitation before, but judges it after its term. */
  predicate IsLateLapse(moves: seq<Move>, t: nat, k: nat, ms: nat) {
    && |moves| == 8 && moves[0] == Fetch(t) && moves[1] == Fetch(k) && moves[2] == Check(t) && moves[3] == Activate(t)
    && moves[4] == Mark(t) && moves[5] == Tick(ms) && moves[6] == Check(k) && moves[7] == Lapse(k)
  }

  lemma LateLapseExists(t: nat, k: nat, ms: nat) returns (moves: seq<Move>)
    ensures IsLateLapse(moves, t, k, ms)
  {
    moves := [Fetch(t), Fetch(k), Check(t), Activate(t), Mark(t), Tick(ms), Check(k), Lapse(k)];
  }

  /** From where both have read the invitation: the one accepts it in time. */
  lemma FirstAccepts(s: System, t: nat, k: nat, inv: Invitation)
    requires t < |s.tasks| && k < |s.tasks| && t != k && s.tasks[t].purpose.ToAccept?
    requires s.tasks[t].stage == Fetched(Some(inv)) && Judged(Some(inv), s.clock) == Usable(inv)
    requires inv.userId < |s.db.users|
    ensures var done := Next(Next(Next(s, Check(t)), Activate(t)), Mark(t));
      && done.db.invitations == MarkAccepted(s.db.invitations, inv.id, s.clock) && done.clock == s.clock
      && k < |done.tasks| && done.tasks[k] == s.tasks[k]
  {
    assert Next(s, Check(t)) == AtStage(s, t, Looked(inv));
    FinishOne(Next(s, Check(t)), t, inv);
  }

  /** And the other marks it as lapsed, judging by what it has read. */
  lemma SecondLapses(s: System, k: nat, inv: Invitation, ms: nat)
    requires k < |s.tasks| && s.tasks[k].stage == Fetched(Some(inv)) && inv.status.PENDING?
    requires inv.expiresAt < s.clock + ms
    ensures Next(Next(Next(s, Tick(ms)), Check(k)), Lapse(k)).db.invitations == MarkExpired(s.db.invitations, inv.id)
  {
    assert Next(Next(s, Tick(ms)), Check(k)).tasks[k].stage == Lapsing(inv.id);
  }

  lemma LateLapseRuns(s: System, moves: seq<Move>, t: nat, k: nat, inv: Invitation, ms: nat)
    requires IsLateLapse(moves, t, k, ms) && t < |s.tasks| && k < |s.tasks| && t != k
    requires s.tasks[t].stage.Arrived? && s.tasks[k].stage.Arrived? && s.tasks[t].purpose.ToAccept?
    requires inv.userId < |s.db.users| && inv.id < |s.db.invitations| && inv.status.PENDING?
    requires Fetching(s.db.invitations, s.tasks[t]) == Fetching(s.db.invitations, s.tasks[k]) == Fetched(Some(inv))
    requires Judged(Some(inv), s.clock) == Usable(inv) && inv.expiresAt < s.clock + ms
    ensures After(Next, s, moves, 8).db.invitations ==
      s.db.invitations[inv.id := s.db.invitations[inv.id].(status := EXPIRED, usedAt := Some(s.clock))]
  {
    LateSteps(Next, s, moves);
    BothFetch(s, t, k, inv);
    var fetched := BothAt(s, t, k, Fetched(Some(inv)));
    FirstAccepts(fetched, t, k, inv);
    SecondLapses(Next(Next(Next(fetched, Check(t)), Activate(t)), Mark(t)), k, inv, ms);
  }

  lemma LateSteps<S, R>(next: (S, R) -> S, s: S, steps: seq<R>)
    requires |steps| == 8
    ensures var five := next(next(next(next(next(s, steps[0]), steps[1]), steps[2]), steps[3]), steps[4]);
      After(next, s, steps, 8) == next(next(next(five, steps[5]), steps[6]), steps[7])
  {
    EightSteps(next, s, steps);
  }

  lemma SharedTokenUnsettles(s: System, t: nat, k: nat)
    requires Fresh(s) && Settled(s.db.invitations) && t < |s.tasks| && k < |s.tasks| && t != k
    requires s.tasks[t].token == s.tasks[k].token && s.tasks[t].purpose.ToAccept?
    ensures !AlwaysSettled(s)
  {
    var inv := AcceptableReads(s, s.tasks[t]);
    if s.tasks[k].purpose.ToAccept? {
      var inv' := AcceptableReads(s, s.tasks[k]);
    }
    var ms := inv.expiresAt - s.clock + 1;
    var moves := LateLapseExists(t, k, ms);
    LateLapseRuns(s, moves, t, k, inv, ms);
    var after := After(Next, s, moves, 8).db.invitations;
    assert after[inv.id].usedAt.Some? && after[inv.id].status.EXPIRED?;
    NoOthersAllowed(s, moves);
  }

  /**
    Acceptances that could each go through alone and validations, sent at once with any other requests
    that accept nothing, leave used invitations ACCEPTED under every schedule, if and only if no
    acceptance shares its token with another of them.
   */
  lemma SettledIffApart(s: System)
    requires Fresh(s) && Settled(s.db.invitations)
    ensures AlwaysSettled(s) <==> AcceptsApart(s.tasks)
  {
    if AcceptsApart(s.tasks) {
      forall moves: seq<Move>, i: nat | i <= |moves| && Allowed(Next, AcceptsNothing, s, moves)
        ensures Settled(After(Next, s, moves, i).db.invitations)
      {
        ApartRunsAreSettled(s, moves, i);
      }
    } else {
      var t, k :| 0 <= t < |s.tasks| && 0 <= k < |s.tasks| && t != k && s.tasks[t].purpose.ToAccept?
        && s.tasks[t].token == s.tasks[k].token;
      SharedTokenUnsettles(s, t, k);
    }
  }
}
