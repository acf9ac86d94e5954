/**
  Invitations sent at once, split at each access to the stores (src/invitations/invitations.service.ts:34-97,
  src/users/users.service.ts:42-62): the user is looked up, a pending invitation is looked up, the user is
  created or updated, the invitation is inserted. Other requests run in between.
 */
module InviteInterleaving {
  import opened AccountRuns
  import opened Accounts
  import opened Common
  import opened Runs
  import opened Text

  datatype Stage =
    | Arrived
    | SawUser(existing: Option<nat>)                    // an inactive user, or none, has the address
    | Cleared(existing: Option<nat>, expiresAt: int)    // no pending invitation was found
    | Unclaimed(expiresAt: int)                         // still nobody had the address
    | HasUser(userId: nat, expiresAt: int)              // the user has been written
    | Finished
    | Rejected(error: Error)

  datatype Task = Task(data: InviteData, invitedBy: string, token: string, ttlDays: nat, stage: Stage) {
    function Address(): string {
      Lower(data.email)
    }

    /** Between the lookup of a pending invitation and the end. */
    predicate Committed() {
      stage.Cleared? || stage.Unclaimed? || stage.HasUser?
    }
  }

  datatype System = System(db: Db, tasks: seq<Task>)

  datatype Move =
    | LookUser(t: nat)
    | LookPending(t: nat, at: int)
    | CheckAddress(t: nat)
    | WriteUser(t: nat)
    | Insert(t: nat)
    | Other(request: Request)  // any whole request, by anyone

  predicate Enabled(s: System, m: Move) {
    match m
    case LookUser(t) => t < |s.tasks| && s.tasks[t].stage.Arrived?
    case LookPending(t, _) => t < |s.tasks| && s.tasks[t].stage.SawUser?
    case CheckAddress(t) => t < |s.tasks| && s.tasks[t].stage.Cleared? && s.tasks[t].stage.existing.None?
    case WriteUser(t) => t < |s.tasks| && (s.tasks[t].stage.Unclaimed? || CanUpdate(s.tasks[t].stage))
    case Insert(t) => t < |s.tasks| && s.tasks[t].stage.HasUser?
    case Other(_) => true
  }

  predicate CanUpdate(stage: Stage) {
    stage.Cleared? && stage.existing.Some?
  }

  function AtStage(s: System, t: nat, stage: Stage): System
    requires t < |s.tasks|
  {
    s.(tasks := s.tasks[t := s.tasks[t].(stage := stage)])
  }

  /** The user that a lookup finds decides whether the invitation goes on. */
  function Seen(users: seq<User>, email: string): Stage {
    match FindByEmail(users, email)
    case None => SawUser(None)
    case Some(u) => if u.isActive then Rejected(EmailTaken) else SawUser(Some(u.id))
  }

  /** The user is updated, or inserted unless the unique index on addresses objects. */
  function Written(users: seq<User>, task: Task): (seq<User>, Stage)
    requires task.stage.Unclaimed? || CanUpdate(task.stage)
  {
    var expiresAt := task.stage.expiresAt;
    var (users', r) :=
      if CanUpdate(task.stage) then UpdateUser(users, task.stage.existing.value, true, InvitePatch(task.data))
      else CreateInvitedUser(users, task.data);
    (users', match r case Ok(u) => HasUser(u.id, expiresAt) case Err(e) => Rejected(e))
  }

  function NewInvitation(invitations: seq<Invitation>, task: Task): Invitation
    requires task.stage.HasUser?
  {
    Invitation(|invitations|, task.Address(), task.data.firstName, task.data.lastName, task.data.role, PENDING,
               Sha256(task.token), task.stage.expiresAt, None, task.invitedBy, task.stage.userId)
  }

  function Next(s: System, m: Move): System {
    if !Enabled(s, m) then s else
    match m
    case LookUser(t) => AtStage(s, t, Seen(s.db.users, s.tasks[t].data.email))
    case LookPending(t, at) =>
      AtStage(s, t,
        if FindPendingByEmail(s.db.invitations, s.tasks[t].data.email).Some? then Rejected(InvitationPending)
        else Cleared(s.tasks[t].stage.existing, Expiry(at, s.tasks[t].ttlDays)))
    case CheckAddress(t) =>
      AtStage(s, t,
        if FindByEmail(s.db.users, s.tasks[t].data.email).Some? then Rejected(EmailTaken)
        else Unclaimed(s.tasks[t].stage.expiresAt))
    case WriteUser(t) =>
      var (users, stage) := Written(s.db.users, s.tasks[t]);
      AtStage(s, t, stage).(db := s.db.(users := users))
    case Insert(t) =>
      if FindByTokenHash(s.db.invitations, Sha256(s.tasks[t].token)).Some? then AtStage(s, t, Rejected(TokenTaken))
      else AtStage(s, t, Finished)
        .(db := s.db.(invitations := s.db.invitations + [NewInvitation(s.db.invitations, s.tasks[t])]))
    case Other(request) => s.(db := Serve(s.db, request).0)
  }

  /** The moves of a task up to its last write. */
  function Prepared(s: System, t: nat, at: int): System {
    Next(Next(Next(Next(s, LookUser(t)), LookPending(t, at)), CheckAddress(t)), WriteUser(t))
  }

  /** All its moves, one after another. */
  function Alone(s: System, t: nat, at: int): System {
    Next(Prepared(s, t, at), Insert(t))
  }

  lemma RejectedStays(s: System, t: nat, at: int)
    requires t < |s.tasks| && s.tasks[t].stage.Rejected?
    ensures Next(s, LookPending(t, at)) == Next(s, CheckAddress(t)) == Next(s, WriteUser(t)) == Next(s, Insert(t)) == s
  {
  }

  /** The stage at which a task is rejected by a lookup, if it is. */
  function RefusedEarly(db: Db, email: string): Option<Error> {
    var existing := FindByEmail(db.users, email);
    if existing.Some? && existing.value.isActive then Some(EmailTaken)
    else if FindPendingByEmail(db.invitations, email).Some? then Some(InvitationPending)
    else None
  }

  lemma RefusedAlone(s: System, t: nat, at: int)
    requires Enabled(s, LookUser(t)) && RefusedEarly(s.db, s.tasks[t].data.email).Some?
    ensures Prepared(s, t, at) == AtStage(s, t, Rejected(RefusedEarly(s.db, s.tasks[t].data.email).value))
  {
    var seen := Next(s, LookUser(t));
    var looked := Next(seen, LookPending(t, at));
    if seen.tasks[t].stage.Rejected? { RejectedStays(seen, t, at); }
    assert looked == AtStage(s, t, Rejected(RefusedEarly(s.db, s.tasks[t].data.email).value));
    RejectedStays(looked, t, at);
  }

  lemma ClearedAlone(s: System, t: nat, at: int)
    requires Enabled(s, LookUser(t)) && RefusedEarly(s.db, s.tasks[t].data.email).None?
    ensures var existing := FindByEmail(s.db.users, s.tasks[t].data.email);
      Next(Next(s, LookUser(t)), LookPending(t, at)) == AtStage(s, t,
        Cleared(if existing.Some? then Some(existing.value.id) else None, Expiry(at, s.tasks[t].ttlDays)))
  {
    assert Next(s, LookUser(t)).tasks[t].stage.SawUser?;
  }

  lemma WrittenAlone(s: System, t: nat)
    requires Sound(s.db) && t < |s.tasks| && s.tasks[t].stage.Cleared?
    requires var existing := FindByEmail(s.db.users, s.tasks[t].data.email);
      s.tasks[t].stage.existing == if existing.Some? then Some(existing.value.id) else None
    ensures var (users, r) := InvitedUser(s.db.users, s.tasks[t].data);
      && r.Ok?
      && Next(Next(s, CheckAddress(t)), WriteUser(t)) ==
           AtStage(s, t, HasUser(r.value.id, s.tasks[t].stage.expiresAt)).(db := s.db.(users := users))
  {
    InvitedUserKeepsUsers(s.db.users, s.tasks[t].data);
    if s.tasks[t].stage.existing.None? {
      assert Next(s, CheckAddress(t)).tasks[t].stage == Unclaimed(s.tasks[t].stage.expiresAt);
    } else {
      assert Next(s, CheckAddress(t)) == s;
    }
  }

  /** What preparing does, when no lookup refuses it. */
  lemma PreparedAlone(s: System, t: nat, at: int)
    requires Sound(s.db) && Enabled(s, LookUser(t)) && RefusedEarly(s.db, s.tasks[t].data.email).None?
    ensures var (users, r) := InvitedUser(s.db.users, s.tasks[t].data);
      && r.Ok?
      && Prepared(s, t, at) ==
           AtStage(s, t, HasUser(r.value.id, Expiry(at, s.tasks[t].ttlDays))).(db := s.db.(users := users))
  {
    ClearedAlone(s, t, at);
    WrittenAlone(Next(Next(s, LookUser(t)), LookPending(t, at)), t);
  }

  /** Run without interruption, the moves of a task do what inviting does as one request. */
  lemma UninterruptedTaskIsInvite(s: System, t: nat, at: int)
    requires Sound(s.db) && Enabled(s, LookUser(t))
    ensures var task := s.tasks[t];
      var (db', r) := Invite(s.db, task.data, task.invitedBy, task.token, at, task.ttlDays);
      var done := Alone(s, t, at);
      && done.db == db' && |done.tasks| == |s.tasks|
      && (r.Ok? <==> done.tasks[t].stage.Finished?)
      && (r.Err? ==> done.tasks[t].stage == Rejected(r.error))
  {
    if RefusedEarly(s.db, s.tasks[t].data.email).Some? {
      RefusedAlone(s, t, at);
    } else {
      PreparedAlone(s, t, at);
    }
  }

  // ----- tasks for different addresses -----

  /** The addresses of the tasks are pairwise distinct, letter case aside. */
  predicate DistinctAddresses(tasks: seq<Task>) {
    forall t, k | 0 <= t < k < |tasks| :: tasks[t].Address() != tasks[k].Address()
  }

  predicate TaskSound(db: Db, task: Task) {
    && (task.stage.HasUser? ==> task.stage.userId < |db.users|)
    && ((task.stage.SawUser? || task.stage.Cleared?) && task.stage.existing.Some? ==>
          task.stage.existing.value < |db.users|)
    && (task.Committed() ==> NonePending(db.invitations, task.Address()))
  }

  predicate NonePending(invitations: seq<Invitation>, address: string) {
    forall i | 0 <= i < |invitations| :: !(invitations[i].status.PENDING? && invitations[i].email == address)
  }

  /** A task that found no pending invitation still has the address to itself. */
  ghost predicate Guarded(s: System) {
    Sound(s.db) && DistinctAddresses(s.tasks) && forall t | 0 <= t < |s.tasks| :: TaskSound(s.db, s.tasks[t])
  }

  /** Other requests are whole, and send no invitations. */
  predicate NoInvites(s: System, m: Move) {
    m.Other? ==> !m.request.Invites?
  }

  lemma NoPendingFound(invitations: seq<Invitation>, email: string)
    ensures FindPendingByEmail(invitations, email).None? <==> NonePending(invitations, Lower(email))
  {
    var found := FindPendingByEmail(invitations, email);
    if found.Some? {
      var i :| 0 <= i < |invitations| && invitations[i] == found.value;
    } else {
      forall i | 0 <= i < |invitations|
        ensures !(invitations[i].status.PENDING? && invitations[i].email == Lower(email))
      {
        assert invitations[i] in invitations;
      }
    }
  }

  lemma AppendedUserKeeps(s: System, task: Task)
    requires Sound(s.db) && (task.stage.Unclaimed? || CanUpdate(task.stage))
    ensures var (users', stage) := Written(s.db.users, task);
      && UsersSound(users') && |s.db.users| <= |users'|
      && (stage.HasUser? ==> stage.userId < |users'|) && (stage.HasUser? || stage.Rejected?)
  {
    if CanUpdate(task.stage) {
      UpdateKeepsUsers(s.db.users, task.stage.existing.value, true, InvitePatch(task.data));
      UpdateSucceedsIff(s.db.users, task.stage.existing.value, true, InvitePatch(task.data));
    } else {
      var (users', r) := CreateInvitedUser(s.db.users, task.data);
      if r.Ok? { AppendedUserIsSound(s.db.users, r.value, task.data.email); }
    }
  }

  lemma InsertKeepsGuarded(s: System, t: nat)
    requires Guarded(s) && Enabled(s, Insert(t))
    ensures Guarded(Next(s, Insert(t)))
  {
    var s' := Next(s, Insert(t));
    assert TaskSound(s.db, s.tasks[t]);
    if s'.db != s.db {
      var inv := NewInvitation(s.db.invitations, s.tasks[t]);
      LowerIsLower(s.tasks[t].data.email);
      NoPendingFound(s.db.invitations, inv.email);
      AppendedInvitationIsSound(s.db.invitations, inv);
    }
    forall k | 0 <= k < |s'.tasks| ensures TaskSound(s'.db, s'.tasks[k]) {
      assert TaskSound(s.db, s.tasks[k]);
      if k != t { assert s.tasks[k].Address() != s.tasks[t].Address(); }
    }
  }

  lemma NonePendingStays(invitations: seq<Invitation>, invitations': seq<Invitation>, address: string)
    requires NonePending(invitations, address) && InvitationsEvolve(invitations, invitations')
    requires |invitations'| == |invitations|
    ensures NonePending(invitations', address)
  {
    forall i | 0 <= i < |invitations'|
      ensures !(invitations'[i].status.PENDING? && invitations'[i].email == address)
    {
      assert Closes(invitations[i], invitations'[i]);
    }
  }

  lemma OtherKeepsGuarded(s: System, r: Request)
    requires Guarded(s) && !r.Invites?
    ensures Guarded(Next(s, Other(r)))
  {
    var db' := Serve(s.db, r).0;
    ServeKeeps(s.db, r);
    OnlyInvitesAdd(s.db, r);
    forall t | 0 <= t < |s.tasks| ensures TaskSound(db', s.tasks[t]) {
      assert TaskSound(s.db, s.tasks[t]);
      if s.tasks[t].Committed() {
        NonePendingStays(s.db.invitations, db'.invitations, s.tasks[t].Address());
      }
    }
  }

  lemma OnlyInvitesAdd(db: Db, r: Request)
    requires Sound(db) && !r.Invites?
    ensures |Serve(db, r).0.invitations| == |db.invitations|
  {
    match r
    case Validate(token, at) => FindUsableKeeps(db.invitations, token, at);
    case Accepts(token, _, at, _) => FindUsableKeeps(db.invitations, token, at);
    case _ =>
  }

  lemma TaskMoveKeepsGuarded(s: System, t: nat, stage: Stage, users': seq<User>)
    requires Guarded(s) && t < |s.tasks| && UsersSound(users') && |s.db.users| <= |users'|
    requires TaskSound(s.db.(users := users'), s.tasks[t].(stage := stage))
    ensures Guarded(AtStage(s, t, stage).(db := s.db.(users := users')))
  {
    var s' := AtStage(s, t, stage).(db := s.db.(users := users'));
    SoundAfterUsers(s.db, users');
    forall k | 0 <= k < |s'.tasks| ensures TaskSound(s'.db, s'.tasks[k]) {
      assert TaskSound(s.db, s.tasks[k]);
    }
  }

  lemma LookKeepsGuarded(s: System, m: Move)
    requires Guarded(s) && Enabled(s, m) && (m.LookUser? || m.LookPending? || m.CheckAddress?)
    ensures Guarded(Next(s, m))
  {
    assert TaskSound(s.db, s.tasks[m.t]);
    FoundById(s.db.users, s.tasks[m.t].data.email);
    NoPendingFound(s.db.invitations, s.tasks[m.t].data.email);
    TaskMoveKeepsGuarded(s, m.t, Next(s, m).tasks[m.t].stage, s.db.users);
    assert s.db.(users := s.db.users) == s.db;
  }

  lemma WriteKeepsGuarded(s: System, t: nat)
    requires Guarded(s) && Enabled(s, WriteUser(t))
    ensures Guarded(Next(s, WriteUser(t)))
  {
    assert TaskSound(s.db, s.tasks[t]);
    AppendedUserKeeps(s, s.tasks[t]);
    var (users', stage) := Written(s.db.users, s.tasks[t]);
    TaskMoveKeepsGuarded(s, t, stage, users');
  }

  lemma NextKeepsGuarded(s: System, m: Move)
    requires Guarded(s) && NoInvites(s, m)
    ensures Guarded(Next(s, m))
  {
    if Enabled(s, m) {
      match m
      case WriteUser(t) => WriteKeepsGuarded(s, t);
      case Insert(t) => InsertKeepsGuarded(s, t);
      case Other(r) => OtherKeepsGuarded(s, r);
      case _ => LookKeepsGuarded(s, m);
    }
  }

  // ----- tasks for one address -----

  /** An address has at most one PENDING invitation. */
  predicate OnePending(db: Db) {
    forall i, j | 0 <= i < j < |db.invitations| ::
      !(db.invitations[i].status.PENDING? && db.invitations[j].status.PENDING?
        && db.invitations[i].email == db.invitations[j].email)
  }

  /** New tasks, each of which would succeed if it ran alone; their tokens are distinct. */
  ghost predicate Ready(s: System) {
    && Sound(s.db)
    && (forall t | 0 <= t < |s.tasks| :: s.tasks[t].stage.Arrived? && Invitable(s.db, s.tasks[t]))
    && (forall t, k | 0 <= t < k < |s.tasks| :: s.tasks[t].token != s.tasks[k].token)
  }

  /** Whoever has this address is inactive. */
  predicate InactiveAt(users: seq<User>, address: string) {
    forall i | 0 <= i < |users| && users[i].email == Some(address) :: !users[i].isActive
  }

  predicate Invitable(db: Db, task: Task) {
    && InactiveAt(db.users, task.Address()) && NonePending(db.invitations, task.Address())
    && FindByTokenHash(db.invitations, Sha256(task.token)).None?
  }

  /** Preparing leaves the address as invitable as it was, and every invitation alone. */
  lemma PreparedIsInvitable(s: System, t: nat, at: int)
    requires Sound(s.db) && Enabled(s, LookUser(t)) && Invitable(s.db, s.tasks[t])
    ensures var s' := Prepared(s, t, at);
      && s'.db.invitations == s.db.invitations && UsersSound(s'.db.users) && |s.db.users| <= |s'.db.users|
      && |s'.tasks| == |s.tasks| && s'.tasks[t].stage.HasUser?
      && s'.tasks == s.tasks[t := s.tasks[t].(stage := s'.tasks[t].stage)]
      && InactiveAt(s'.db.users, s.tasks[t].Address())
  {
    var task := s.tasks[t];
    NotRefusedEarly(s.db, task);
    PreparedAlone(s, t, at);
    InvitedUserKeepsUsers(s.db.users, task.data);
    var (users, r) := InvitedUser(s.db.users, task.data);
    forall i | 0 <= i < |users| && users[i].email == Some(task.Address()) ensures !users[i].isActive {
      assert i == r.value.id;
    }
  }

  lemma NotRefusedEarly(db: Db, task: Task)
    requires Invitable(db, task)
    ensures RefusedEarly(db, task.data.email).None?
  {
    NoPendingFound(db.invitations, task.data.email);
    var found := FindByEmail(db.users, task.data.email);
    if found.Some? {
      var i :| 0 <= i < |db.users| && db.users[i] == found.value;
    }
  }

  /** Both tasks prepare, then both insert. */
  function Race(t: nat, k: nat, at: int): seq<Move> {
    [LookUser(t), LookPending(t, at), CheckAddress(t), WriteUser(t),
     LookUser(k), LookPending(k, at), CheckAddress(k), WriteUser(k), Insert(t), Insert(k)]
  }

  lemma TenSteps<S, R>(next: (S, R) -> S, s: S, steps: seq<R>)
    requires |steps| == 10
    ensures var four := next(next(next(next(s, steps[0]), steps[1]), steps[2]), steps[3]);
      var eight := next(next(next(next(four, steps[4]), steps[5]), steps[6]), steps[7]);
      After(next, s, steps, 10) == next(next(eight, steps[8]), steps[9])
  {
    assert After(next, s, steps, 1) == next(s, steps[0]);
    assert After(next, s, steps, 2) == next(next(s, steps[0]), steps[1]);
    assert After(next, s, steps, 4) == next(next(After(next, s, steps, 2), steps[2]), steps[3]);
    assert After(next, s, steps, 6) == next(next(After(next, s, steps, 4), steps[4]), steps[5]);
    assert After(next, s, steps, 8) == next(next(After(next, s, steps, 6), steps[6]), steps[7]);
  }

  lemma RaceIsPrepared(s: System, t: nat, k: nat, at: int)
    ensures After(Next, s, Race(t, k, at), 10)
      == Next(Next(Prepared(Prepared(s, t, at), k, at), Insert(t)), Insert(k))
  {
    TenSteps(Next, s, Race(t, k, at));
  }

  lemma InsertAddsPending(s: System, t: nat)
    requires Enabled(s, Insert(t)) && FindByTokenHash(s.db.invitations, Sha256(s.tasks[t].token)).None?
    ensures var s' := Next(s, Insert(t));
      && s'.db.invitations == s.db.invitations + [NewInvitation(s.db.invitations, s.tasks[t])]
      && |s'.tasks| == |s.tasks| && forall k | 0 <= k < |s.tasks| && k != t :: s'.tasks[k] == s.tasks[k]
  {
  }

  lemma StillNoToken(invitations: seq<Invitation>, inv: Invitation, hash: TokenHash)
    requires FindByTokenHash(invitations, hash).None? && inv.tokenHash != hash
    ensures FindByTokenHash(invitations + [inv], hash).None?
  {
  }

  /** Two tasks for one address that could each go through alone leave it with two PENDING invitations. */
  lemma RaceLeavesTwoPending(s: System, t: nat, k: nat, at: int)
    requires Ready(s) && t < k < |s.tasks| && s.tasks[t].Address() == s.tasks[k].Address()
    ensures !OnePending(After(Next, s, Race(t, k, at), 10).db)
  {
    RaceIsPrepared(s, t, k, at);
    var one := Prepared(s, t, at);
    PreparedIsInvitable(s, t, at);
    assert Invitable(one.db, one.tasks[k]);
    var two := Prepared(one, k, at);
    PreparedIsInvitable(one, k, at);
    assert two.tasks[t] == one.tasks[t];
    var three := Next(two, Insert(t));
    InsertAddsPending(two, t);
    StillNoToken(two.db.invitations, NewInvitation(two.db.invitations, two.tasks[t]), Sha256(two.tasks[k].token));
    InsertAddsPending(three, k);
    var n := |s.db.invitations|;
    var four := Next(three, Insert(k)).db.invitations;
    assert four[n].status.PENDING? && four[n + 1].status.PENDING? && four[n].email == four[n + 1].email;
  }

  /** Every interleaving keeps it, whatever the other requests, as long as those send no invitations. */
  ghost predicate AlwaysOnePending(s: System) {
    forall moves: seq<Move>, i: nat | i <= |moves| && Allowed(Next, NoInvites, s, moves) ::
      OnePending(After(Next, s, moves, i).db)
  }

  /** Tasks for different addresses keep the whole invariant of serial runs. */
  lemma DistinctRunsAreGuarded(s: System, moves: seq<Move>, i: nat)
    requires Ready(s) && DistinctAddresses(s.tasks) && i <= |moves| && Allowed(Next, NoInvites, s, moves)
    ensures Sound(After(Next, s, moves, i).db) && OnePending(After(Next, s, moves, i).db)
  {
    assert Guarded(s);
    forall t: System, m: Move | Guarded(t) && NoInvites(t, m) ensures Guarded(Next(t, m)) { NextKeepsGuarded(t, m); }
    Always(Next, Guarded, NoInvites, s, moves, i);
  }

  lemma RaceBreaks(s: System, t: nat, k: nat)
    requires Ready(s) && t < k < |s.tasks| && s.tasks[t].Address() == s.tasks[k].Address()
    ensures !AlwaysOnePending(s)
  {
    var race := Race(t, k, 0);
    RaceLeavesTwoPending(s, t, k, 0);
    assert |race| == 10 && forall i | 0 <= i < 10 :: !race[i].Other?;
    assert Allowed(Next, NoInvites, s, race) by {
      forall i: nat | i < |race| ensures NoInvites(After(Next, s, race, i), race[i]) {
      }
    }
  }

  /**
    Invitations that could each go through alone, sent at once, can leave an address with two PENDING
    invitations if and only if two of them are for the same address, letter case aside.
   */
  lemma OnePendingIffDistinct(s: System)
    requires Ready(s)
    ensures AlwaysOnePending(s) <==> DistinctAddresses(s.tasks)
  {
    if DistinctAddresses(s.tasks) {
      forall moves: seq<Move>, i: nat | i <= |moves| && Allowed(Next, NoInvites, s, moves)
        ensures OnePending(After(Next, s, moves, i).db)
      {
        DistinctRunsAreGuarded(s, moves, i);
      }
    } else {
      var t, k :| 0 <= t < k < |s.tasks| && s.tasks[t].Address() == s.tasks[k].Address();
      RaceBreaks(s, t, k);
    }
  }
}
