/**
  Requests that open a token, split at each access to the stores (src/invitations/invitations.service.ts:131-215):
  the invitation is read, its state is judged and may be marked EXPIRED, the user is activated, the
  invitation is marked ACCEPTED. Other requests run in between, and time passes.
 */
module AcceptInterleaving {
  import opened AccountRuns
  import opened AccountUpdates
  import opened Accounts
  import opened Common
  import opened Runs
  import opened Text

  /** What a token is opened for. */
  datatype Purpose = ToAccept(data: AcceptData) | ToValidate

  datatype Stage =
    | Arrived
    | Fetched(found: Option<Invitation>)  // what the store held when it was read
    | Looked(invitation: Invitation)      // it was found usable
    | Lapsing(id: nat)                    // it was found overdue
    | Active(id: nat)                     // the user has been activated
    | Finished
    | Rejected(error: Error)

  datatype Task = Task(token: string, purpose: Purpose, stage: Stage)

  datatype System = System(clock: int, db: Db, tasks: seq<Task>)

  datatype Move =
    | Tick(ms: nat)
    | Fetch(t: nat)
    | Check(t: nat)
    | Lapse(t: nat)
    | Activate(t: nat)
    | Mark(t: nat)
    | Other(request: Request)  // any whole request, by anyone

  predicate Enabled(s: System, m: Move) {
    match m
    case Fetch(t) => t < |s.tasks| && s.tasks[t].stage.Arrived?
    case Check(t) => t < |s.tasks| && s.tasks[t].stage.Fetched?
    case Lapse(t) => t < |s.tasks| && s.tasks[t].stage.Lapsing?
    case Activate(t) => t < |s.tasks| && s.tasks[t].stage.Looked? && s.tasks[t].purpose.ToAccept?
    case Mark(t) => t < |s.tasks| && s.tasks[t].stage.Active?
    case _ => true
  }

  function AtStage(s: System, t: nat, stage: Stage): System
    requires t < |s.tasks|
  {
    s.(tasks := s.tasks[t := s.tasks[t].(stage := stage)])
  }

  /** The checks that need no store, then the read. */
  function Fetching(invitations: seq<Invitation>, task: Task): Stage {
    if task.purpose.ToAccept? && task.purpose.data.password != task.purpose.data.confirmPassword
    then Rejected(PasswordsDiffer)
    else if IsBlank(task.token) then Rejected(TokenRequired)
    else Fetched(FindByTokenHash(invitations, Sha256(task.token)))
  }

  /** What was read is judged by the present time; validating ends with a usable invitation. */
  function Checking(found: Option<Invitation>, purpose: Purpose, at: int): Stage {
    match Judged(found, at)
    case Unusable(e) => Rejected(e)
    case Overdue(id) => Lapsing(id)
    case Usable(inv) => if purpose.ToAccept? then Looked(inv) else Finished
  }

  function Next(s: System, m: Move): System {
    if !Enabled(s, m) then s else
    match m
    case Tick(ms) => s.(clock := s.clock + ms)
    case Fetch(t) => AtStage(s, t, Fetching(s.db.invitations, s.tasks[t]))
    case Check(t) => AtStage(s, t, Checking(s.tasks[t].stage.found, s.tasks[t].purpose, s.clock))
    case Lapse(t) =>
      AtStage(s, t, Rejected(InvitationExpired))
        .(db := s.db.(invitations := MarkExpired(s.db.invitations, s.tasks[t].stage.id)))
    case Activate(t) =>
      var inv := s.tasks[t].stage.invitation;
      var (users, activated) := ActivateInvited(s.db.users, inv, s.tasks[t].purpose.data);
      AtStage(s, t, match activated case Ok(_) => Active(inv.id) case Err(e) => Rejected(e))
        .(db := s.db.(users := users))
    case Mark(t) =>
      AtStage(s, t, Finished)
        .(db := s.db.(invitations := MarkAccepted(s.db.invitations, s.tasks[t].stage.id, s.clock)))
    case Other(request) => s.(db := Serve(s.db, request).0)
  }

  // ----- what every move keeps -----

  predicate IsOfToken(db: Db, id: nat, token: string) {
    id < |db.invitations| && db.invitations[id].tokenHash == Sha256(token)
  }

  /** The invitation as it was read, apart from its status and its time of use, is the stored one. */
  predicate IsCopy(db: Db, inv: Invitation, token: string) {
    && IsOfToken(db, inv.id, token)
    && db.invitations[inv.id].userId == inv.userId && db.invitations[inv.id].expiresAt == inv.expiresAt
  }

  /** A task refers to the stored invitation of its token. */
  predicate TaskSound(db: Db, task: Task) {
    match task.stage
    case Fetched(found) => found.Some? ==> IsCopy(db, found.value, task.token)
    case Looked(inv) => IsCopy(db, inv, task.token) && inv.status.PENDING? && task.purpose.ToAccept?
    case Lapsing(id) => IsOfToken(db, id, task.token)
    case Active(id) => IsOfToken(db, id, task.token) && task.purpose.ToAccept?
    case _ => true
  }

  ghost predicate SystemSound(s: System) {
    Sound(s.db) && forall t | 0 <= t < |s.tasks| :: TaskSound(s.db, s.tasks[t])
  }

  /** Users and invitations are only added; invitations keep their users, tokens and terms, and stay used and closed. */
  ghost predicate Steady(db: Db, db': Db) {
    && |db.users| <= |db'.users| && |db.invitations| <= |db'.invitations|
    && (forall i | 0 <= i < |db.invitations| :: Persists(db.invitations[i], db'.invitations[i]))
  }

  predicate Persists(before: Invitation, after: Invitation) {
    && after.userId == before.userId && after.tokenHash == before.tokenHash && after.expiresAt == before.expiresAt
    && (before.usedAt.Some? ==> after.usedAt.Some?) && (after.status.PENDING? ==> before.status.PENDING?)
  }

  lemma SteadyKeepsTask(db: Db, db': Db, task: Task)
    requires Steady(db, db') && TaskSound(db, task)
    ensures TaskSound(db', task)
  {
    match task.stage
    case Fetched(found) =>
      if found.Some? { assert Persists(db.invitations[found.value.id], db'.invitations[found.value.id]); }
    case Looked(inv) => assert Persists(db.invitations[inv.id], db'.invitations[inv.id]);
    case Lapsing(id) => assert Persists(db.invitations[id], db'.invitations[id]);
    case Active(id) => assert Persists(db.invitations[id], db'.invitations[id]);
    case _ =>
  }

  lemma OthersKept(s: System, s': System, t: nat)
    requires SystemSound(s) && Steady(s.db, s'.db) && Sound(s'.db)
    requires |s'.tasks| == |s.tasks| && t < |s.tasks| && TaskSound(s'.db, s'.tasks[t])
    requires forall k | 0 <= k < |s.tasks| && k != t :: s'.tasks[k] == s.tasks[k]
    ensures SystemSound(s')
  {
    forall k | 0 <= k < |s.tasks| ensures TaskSound(s'.db, s'.tasks[k]) {
      if k != t { SteadyKeepsTask(s.db, s'.db, s.tasks[k]); }
    }
  }

  lemma ReadKeeps(s: System, m: Move)
    requires SystemSound(s) && Enabled(s, m) && (m.Fetch? || m.Check?)
    ensures SystemSound(Next(s, m)) && Next(s, m).db == s.db
  {
    assert TaskSound(s.db, s.tasks[m.t]);
    FoundInvitation(s.db.invitations, Sha256(s.tasks[m.t].token));
    assert Steady(s.db, s.db);
    OthersKept(s, Next(s, m), m.t);
  }

  lemma MarkExpiredKeeps(invitations: seq<Invitation>, id: nat)
    requires InvitationsSound(invitations) && id < |invitations|
    ensures InvitationsSound(MarkExpired(invitations, id))
  {
    StatusChangeKeepsInvitations(invitations, id, invitations[id].(status := EXPIRED));
  }

  lemma LapseKeeps(s: System, t: nat)
    requires SystemSound(s) && Enabled(s, Lapse(t))
    ensures SystemSound(Next(s, Lapse(t))) && Steady(s.db, Next(s, Lapse(t)).db)
  {
    assert TaskSound(s.db, s.tasks[t]);
    MarkExpiredKeeps(s.db.invitations, s.tasks[t].stage.id);
    OthersKept(s, Next(s, Lapse(t)), t);
  }

  lemma ActivateKeeps(s: System, t: nat)
    requires SystemSound(s) && Enabled(s, Activate(t))
    ensures SystemSound(Next(s, Activate(t))) && Steady(s.db, Next(s, Activate(t)).db)
    ensures PasswordsStay(s.db.users, Next(s, Activate(t)).db.users)
  {
    assert TaskSound(s.db, s.tasks[t]);
    OthersKept(s, Next(s, Activate(t)), t);
  }

  lemma MarkKeeps(s: System, t: nat)
    requires SystemSound(s) && Enabled(s, Mark(t))
    ensures SystemSound(Next(s, Mark(t))) && Steady(s.db, Next(s, Mark(t)).db)
  {
    assert TaskSound(s.db, s.tasks[t]);
    MarkKeepsInvitations(s.db.invitations, s.tasks[t].stage.id, s.clock);
    OthersKept(s, Next(s, Mark(t)), t);
  }

  lemma EvolvesIsSteady(db: Db, db': Db)
    requires Evolves(db, db')
    ensures Steady(db, db')
  {
    forall i | 0 <= i < |db.invitations| ensures Persists(db.invitations[i], db'.invitations[i]) {
      assert Closes(db.invitations[i], db'.invitations[i]);
    }
  }

  lemma OtherKeeps(s: System, request: Request)
    requires SystemSound(s)
    ensures SystemSound(Next(s, Other(request))) && Steady(s.db, Next(s, Other(request)).db)
  {
    var db' := Serve(s.db, request).0;
    ServeKeeps(s.db, request);
    EvolvesIsSteady(s.db, db');
    forall k | 0 <= k < |s.tasks| ensures TaskSound(db', s.tasks[k]) {
      SteadyKeepsTask(s.db, db', s.tasks[k]);
    }
  }

  lemma NextKeeps(s: System, m: Move)
    requires SystemSound(s)
    ensures SystemSound(Next(s, m)) && Steady(s.db, Next(s, m).db)
  {
    if Enabled(s, m) {
      match m
      case Lapse(t) => LapseKeeps(s, t);
      case Activate(t) => ActivateKeeps(s, t);
      case Mark(t) => MarkKeeps(s, t);
      case Other(request) => OtherKeeps(s, request);
      case Tick(_) =>
      case _ => ReadKeeps(s, m);
    }
  }

  predicate AnyMove(s: System, m: Move) {
    true
  }

  ghost predicate SteadyBetween(s: System, s': System) {
    Steady(s.db, s'.db)
  }

  lemma SteadyTransitive(a: Db, b: Db, c: Db)
    requires Steady(a, b) && Steady(b, c)
    ensures Steady(a, c)
  {
    forall i | 0 <= i < |a.invitations| ensures Persists(a.invitations[i], c.invitations[i]) {
      assert Persists(a.invitations[i], b.invitations[i]) && Persists(b.invitations[i], c.invitations[i]);
    }
  }

  lemma NextIsSteady()
    ensures Keeps(Next, SystemSound, AnyMove) && Relates(Next, SystemSound, AnyMove, SteadyBetween)
  {
    forall s: System, m: Move | SystemSound(s) ensures SystemSound(Next(s, m)) && SteadyBetween(s, Next(s, m)) {
      NextKeeps(s, m);
    }
    forall a: System, b: System, c: System | SteadyBetween(a, b) && SteadyBetween(b, c) ensures SteadyBetween(a, c) {
      SteadyTransitive(a.db, b.db, c.db);
    }
  }

  /**
    In every interleaving of any moves users and invitations stay sound. An invitation keeps its user,
    its token and its term; it stays used once it is, and never becomes PENDING again.
   */
  lemma InterleavingsAreSound(s: System, moves: seq<Move>, i: nat, j: nat)
    requires SystemSound(s) && i <= j <= |moves|
    ensures SystemSound(After(Next, s, moves, i)) && SystemSound(After(Next, s, moves, j))
    ensures Steady(After(Next, s, moves, i).db, After(Next, s, moves, j).db)
  {
    NextIsSteady();
    Always(Next, SystemSound, AnyMove, s, moves, i);
    Always(Next, SystemSound, AnyMove, s, moves, j);
    Between(Next, SystemSound, AnyMove, SteadyBetween, s, moves, i, j);
  }

  // ----- run without interruption -----

  /** The two moves that open a token, and the write when the invitation has lapsed. */
  function OpenedAlone(s: System, t: nat): System {
    Next(Next(Next(s, Fetch(t)), Check(t)), Lapse(t))
  }

  lemma OpeningAlone(s: System, t: nat)
    requires SystemSound(s) && Enabled(s, Fetch(t))
    requires Fetching(s.db.invitations, s.tasks[t]).Fetched?
    ensures var (invitations, usable) := FindUsable(s.db.invitations, s.tasks[t].token, s.clock);
      OpenedAlone(s, t) == AtStage(s, t,
        match usable
        case Err(e) => Rejected(e)
        case Ok(inv) => if s.tasks[t].purpose.ToAccept? then Looked(inv) else Finished)
        .(db := s.db.(invitations := invitations))
  {
    FoundInvitation(s.db.invitations, Sha256(s.tasks[t].token));
    var checked := Next(Next(s, Fetch(t)), Check(t));
    assert checked.db == s.db;
  }

  /** Run without interruption, the moves of a task that validates do what validating does as one request. */
  lemma UninterruptedTaskIsValidate(s: System, t: nat)
    requires SystemSound(s) && Enabled(s, Fetch(t)) && s.tasks[t].purpose.ToValidate?
    ensures
      var (db', reply) := Serve(s.db, Validate(s.tasks[t].token, s.clock));
      var done := OpenedAlone(s, t);
      && done.db == db' && |done.tasks| == |s.tasks|
      && (reply.InvitationReply? <==> done.tasks[t].stage.Finished?)
      && (reply.Refused? ==> done.tasks[t].stage == Rejected(reply.error))
  {
    if Fetching(s.db.invitations, s.tasks[t]).Fetched? { OpeningAlone(s, t); }
  }

  /** And those of a task that accepts do what acceptance does as one request, with the same error. */
  lemma UninterruptedTaskIsAccept(s: System, t: nat)
    requires SystemSound(s) && Enabled(s, Fetch(t)) && s.tasks[t].purpose.ToAccept?
    ensures
      var done := Next(Next(OpenedAlone(s, t), Activate(t)), Mark(t));
      var (db', r) := Accept(s.db, s.tasks[t].token, s.tasks[t].purpose.data, s.clock, s.clock);
      && done.db == db' && |done.tasks| == |s.tasks|
      && (r.Ok? <==> done.tasks[t].stage.Finished?)
      && (r.Err? ==> done.tasks[t].stage == Rejected(r.error))
  {
    if Fetching(s.db.invitations, s.tasks[t]).Fetched? { OpeningAlone(s, t); }
  }

  // ----- passwords of those who joined -----

  /** A task that has activated its user has given the user a password. */
  predicate TaskReady(db: Db, task: Task) {
    task.stage.Active? ==>
      task.stage.id < |db.invitations| && HasPassword(db.users, db.invitations[task.stage.id].userId)
  }

  predicate Ready(s: System) {
    Passworded(s.db) && forall t | 0 <= t < |s.tasks| :: TaskReady(s.db, s.tasks[t])
  }

  /** Some task has activated this user and not yet marked its invitation. */
  predicate Joining(s: System, id: nat) {
    exists t | 0 <= t < |s.tasks| :: ActiveFor(s.db, s.tasks[t], id)
  }

  predicate ActiveFor(db: Db, task: Task, id: nat) {
    task.stage.Active? && task.stage.id < |db.invitations| && db.invitations[task.stage.id].userId == id
  }

  /** An update that is not refused takes the password of a user who has joined, or is about to. */
  predicate Disrupts(s: System, m: Move) {
    && m.Other? && m.request.Update? && Clears(m.request.patch)
    && (Joined(s.db, m.request.id) || Joining(s, m.request.id))
    && !OtherHas(s.db.users, m.request.id, m.request.asStored, m.request.patch.email)
  }

  lemma TasksStayReady(s: System, s': System, t: nat)
    requires SystemSound(s) && Ready(s) && Steady(s.db, s'.db) && PasswordsStay(s.db.users, s'.db.users)
    requires |s'.tasks| == |s.tasks| && forall k | 0 <= k < |s.tasks| && k != t :: s'.tasks[k] == s.tasks[k]
    requires t < |s.tasks| ==> TaskReady(s'.db, s'.tasks[t])
    ensures forall k | 0 <= k < |s'.tasks| :: TaskReady(s'.db, s'.tasks[k])
  {
    forall k | 0 <= k < |s'.tasks| ensures TaskReady(s'.db, s'.tasks[k]) {
      assert TaskReady(s.db, s.tasks[k]);
      if k != t && s.tasks[k].stage.Active? {
        assert Persists(s.db.invitations[s.tasks[k].stage.id], s'.db.invitations[s.tasks[k].stage.id]);
      }
    }
  }

  lemma SameUsesKeepPassworded(db: Db, invitations: seq<Invitation>)
    requires Passworded(db) && |invitations| == |db.invitations|
    requires forall i | 0 <= i < |invitations| ::
      invitations[i].userId == db.invitations[i].userId
      && (invitations[i].usedAt.Some? ==> HasPassword(db.users, db.invitations[i].userId))
    ensures Passworded(db.(invitations := invitations))
  {
  }

  lemma LapseKeepsReady(s: System, t: nat)
    requires SystemSound(s) && Ready(s) && Enabled(s, Lapse(t))
    ensures Ready(Next(s, Lapse(t)))
  {
    LapseKeeps(s, t);
    TasksStayReady(s, Next(s, Lapse(t)), t);
    SameUsesKeepPassworded(s.db, Next(s, Lapse(t)).db.invitations);
  }

  lemma ActivateKeepsReady(s: System, t: nat)
    requires SystemSound(s) && Ready(s) && Enabled(s, Activate(t))
    ensures Ready(Next(s, Activate(t)))
  {
    var s' := Next(s, Activate(t));
    ActivateKeeps(s, t);
    assert TaskSound(s.db, s.tasks[t]);
    TasksStayReady(s, s', t);
    PasswordsStayKeeps(s.db, s'.db.users);
  }

  lemma MarkKeepsReady(s: System, t: nat)
    requires SystemSound(s) && Ready(s) && Enabled(s, Mark(t))
    ensures Ready(Next(s, Mark(t)))
  {
    MarkKeeps(s, t);
    assert TaskReady(s.db, s.tasks[t]);
    TasksStayReady(s, Next(s, Mark(t)), t);
    SameUsesKeepPassworded(s.db, Next(s, Mark(t)).db.invitations);
  }

  lemma ClearingKeepsReadyIff(s: System, r: Request)
    requires SystemSound(s) && Ready(s) && ClearsPassword(r)
    ensures Ready(Next(s, Other(r))) <==> !Disrupts(s, Other(r))
  {
    var s' := Next(s, Other(r));
    UpdateSucceedsIff(s.db.users, r.id, r.asStored, r.patch);
    PasswordsKeptIff(s.db, r);
    if Joining(s, r.id) {
      var t :| 0 <= t < |s.tasks| && ActiveFor(s.db, s.tasks[t], r.id);
      assert TaskReady(s.db, s.tasks[t]);
      assert TaskReady(s'.db, s'.tasks[t]) <==> OtherHas(s.db.users, r.id, r.asStored, r.patch.email);
    } else {
      forall t | 0 <= t < |s.tasks| ensures TaskReady(s'.db, s'.tasks[t]) {
        assert TaskReady(s.db, s.tasks[t]) && !ActiveFor(s.db, s.tasks[t], r.id);
      }
    }
  }

  lemma OtherKeepsReadyIff(s: System, r: Request)
    requires SystemSound(s) && Ready(s)
    ensures Ready(Next(s, Other(r))) <==> !Disrupts(s, Other(r))
  {
    if ClearsPassword(r) {
      ClearingKeepsReadyIff(s, r);
    } else {
      OtherKeeps(s, r);
      ServeKeeps(s.db, r);
      PasswordsKeptIff(s.db, r);
      TasksStayReady(s, Next(s, Other(r)), |s.tasks|);
    }
  }

  /** Of all moves, exactly these updates leave a user who has joined, or is about to, without a password. */
  lemma ReadyKeptIff(s: System, m: Move)
    requires SystemSound(s) && Ready(s)
    ensures Ready(Next(s, m)) <==> !Disrupts(s, m)
  {
    if Enabled(s, m) {
      match m
      case Lapse(t) => LapseKeepsReady(s, t);
      case Activate(t) => ActivateKeepsReady(s, t);
      case Mark(t) => MarkKeepsReady(s, t);
      case Other(r) => OtherKeepsReadyIff(s, r);
      case Tick(_) =>
      case _ =>
        assert Steady(s.db, s.db);
        TasksStayReady(s, Next(s, m), m.t);
    }
  }

  predicate Undisruptive(s: System, m: Move) {
    !Disrupts(s, m)
  }

  /**
    However acceptances and other requests interleave, everyone who has joined, or is about to, has a
    password in all states if and only if no update in the interleaving disrupts the state it meets.
   */
  lemma InterleavingsAreReadyIff(s: System, moves: seq<Move>)
    requires SystemSound(s) && Ready(s)
    ensures (forall i: nat | i <= |moves| :: Ready(After(Next, s, moves, i))) <==> Allowed(Next, Undisruptive, s, moves)
  {
    forall t: System, m: Move | SystemSound(t) ensures SystemSound(Next(t, m)) { NextKeeps(t, m); }
    forall t: System, m: Move | SystemSound(t) && Ready(t) ensures Ready(Next(t, m)) <==> Undisruptive(t, m) {
      ReadyKeptIff(t, m);
    }
    AlwaysIff(Next, SystemSound, Ready, Undisruptive, s, moves);
  }

  /** In such an interleaving every invitation with a time of use names an existing user who has a password. */
  lemma UsedInvitationsHavePasswords(s: System, moves: seq<Move>, i: nat)
    requires SystemSound(s) && Ready(s) && i <= |moves| && Allowed(Next, Undisruptive, s, moves)
    ensures var db := After(Next, s, moves, i).db; Sound(db) && Passworded(db)
  {
    InterleavingsAreReadyIff(s, moves);
    InterleavingsAreSound(s, moves, i, i);
    assert Ready(After(Next, s, moves, i));
  }

  /** An update between the two writes of a task does disrupt: the invitation ends up used, its user locked out. */
  lemma NullPasswordBetweenWrites(s: System, t: nat)
    requires SystemSound(s) && Ready(s) && Enabled(s, Mark(t))
    ensures var id := s.tasks[t].stage.id;
      && id < |s.db.invitations|
      && !Passworded(Next(Next(s, Other(Update(s.db.invitations[id].userId, true, NULL_PASSWORD))), Mark(t)).db)
  {
    assert TaskSound(s.db, s.tasks[t]);
    var id := s.tasks[t].stage.id;
    var userId := s.db.invitations[id].userId;
    UpdateSucceedsIff(s.db.users, userId, true, NULL_PASSWORD);
    var cleared := Next(s, Other(Update(userId, true, NULL_PASSWORD)));
    assert !HasPassword(cleared.db.users, userId);
    var db := Next(cleared, Mark(t)).db;
    assert db.invitations[id].usedAt.Some? && !HasPassword(db.users, db.invitations[id].userId);
  }
}
