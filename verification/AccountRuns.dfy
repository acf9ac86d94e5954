/** What every serial run of account requests keeps. */
module AccountRuns {
  import opened Accounts
  import opened Common
  import opened Runs
  import opened Text

  // ----- the invariant -----

  /** Users are numbered; their addresses are distinct, and in lower case where there is one. */
  ghost predicate UsersSound(users: seq<User>) {
    && (forall i | 0 <= i < |users| :: users[i].id == i && (users[i].email.Some? ==> IsLower(users[i].email.value)))
    && (forall i, j | 0 <= i < j < |users| :: users[i].email != users[j].email)
  }

  /**
    Invitations are numbered and told apart by their tokens; an address has at most one PENDING
    invitation; ACCEPTED comes with a time of use, PENDING without, and REVOKED never occurs.
   */
  ghost predicate InvitationsSound(invitations: seq<Invitation>) {
    && (forall i | 0 <= i < |invitations| :: InvitationSound(invitations[i], i))
    && (forall i, j | 0 <= i < j < |invitations| :: invitations[i].tokenHash != invitations[j].tokenHash)
    && (forall i, j | 0 <= i < j < |invitations| ::
          !(invitations[i].status.PENDING? && invitations[j].status.PENDING?
            && invitations[i].email == invitations[j].email))
  }

  predicate InvitationSound(inv: Invitation, i: nat) {
    && inv.id == i && IsLower(inv.email) && !inv.status.REVOKED?
    && (inv.status.ACCEPTED? ==> inv.usedAt.Some?) && (inv.status.PENDING? ==> inv.usedAt.None?)
  }

  /** Each invitation names a user. */
  predicate Linked(db: Db) {
    forall i | 0 <= i < |db.invitations| :: db.invitations[i].userId < |db.users|
  }

  ghost predicate Sound(db: Db) {
    UsersSound(db.users) && InvitationsSound(db.invitations) && Linked(db)
  }

  /** An invitation that has been used is ACCEPTED. */
  predicate Settled(invitations: seq<Invitation>) {
    forall i | 0 <= i < |invitations| && invitations[i].usedAt.Some? :: invitations[i].status.ACCEPTED?
  }

  // ----- requests about users -----

  lemma FoundById(users: seq<User>, email: string)
    requires UsersSound(users)
    ensures var r := FindByEmail(users, email);
      r.Some? ==> r.value.id < |users| && users[r.value.id] == r.value
  {
  }

  lemma AppendedUserIsSound(users: seq<User>, u: User, email: string)
    requires UsersSound(users) && u.id == |users| && u.email == Some(Lower(email))
    requires FindByEmail(users, email).None?
    ensures UsersSound(users + [u])
  {
    LowerIsLower(email);
    forall i | 0 <= i < |users| ensures users[i].email != u.email { assert users[i] in users; }
  }

  /** Users are only added, and none loses a password. */
  predicate PasswordsStay(users: seq<User>, users': seq<User>) {
    && |users| <= |users'|
    && (forall i | 0 <= i < |users| :: users[i].password.Some? ==> users'[i].password.Some?)
  }

  lemma CreateKeepsUsers(users: seq<User>, dto: NewUser)
    requires UsersSound(users)
    ensures UsersSound(CreateUser(users, dto).0) && PasswordsStay(users, CreateUser(users, dto).0)
  {
    var (users', r) := CreateUser(users, dto);
    if r.Ok? { AppendedUserIsSound(users, r.value, dto.email); }
  }

  /** The address that an update gives, if it gives one or takes the one there is. */
  function NewAddress(email: Field<string>): Option<string> {
    if email.Given? then Some(Lower(email.value)) else None
  }

  /**
    A user other than the one named has the address that the update gives; null counts as an address.
    Under an id that is not spelled as it is stored, the user itself counts as another one.
   */
  predicate OtherHas(users: seq<User>, id: nat, asStored: bool, email: Field<string>) {
    !email.Absent? && exists u | u in users ::
      u.email == NewAddress(email) && !(u.id == id && (asStored || email.Null? || email.value == ""))
  }

  lemma OtherHasIsTaken(users: seq<User>, id: nat, email: Field<string>)
    requires UsersSound(users) && !email.Absent?
    ensures OtherHas(users, id, true, email) <==> AddressTaken(users, id, NewAddress(email))
  {
    if OtherHas(users, id, true, email) {
      var u :| u in users && u.email == NewAddress(email) && u.id != id;
      var i :| 0 <= i < |users| && users[i] == u;
    }
    if AddressTaken(users, id, NewAddress(email)) {
      var i :| 0 <= i < |users| && i != id && users[i].email == NewAddress(email);
      assert users[i] in users;
    }
  }

  lemma FoundIsOther(users: seq<User>, id: nat, asStored: bool, email: string)
    requires UsersSound(users) && email != ""
    ensures var found := FindByEmail(users, email);
      (found.Some? && !(found.value.id == id && asStored)) <==> OtherHas(users, id, asStored, Given(email))
  {
    FoundById(users, email);
    var found := FindByEmail(users, email);
    forall u | u in users && u.email == Some(Lower(email)) ensures found == Some(u) {
      var i :| 0 <= i < |users| && users[i] == u;
      assert found.value.id == i;
    }
  }

  lemma OtherHasUnspelled(users: seq<User>, id: nat, asStored: bool, email: Field<string>)
    ensures OtherHas(users, id, true, email) ==> OtherHas(users, id, asStored, email)
    ensures email.Null? || email == Given("") ==>
      (OtherHas(users, id, asStored, email) <==> OtherHas(users, id, true, email))
  {
  }

  /**
    An update succeeds exactly when the id names a user and no other user has the address it gives;
    a user may be given the address it already has, in any letter case, when its id is spelled as it
    is stored, and at most one user can have an address of null. A failed update changes nothing, a
    successful one that user alone, each field of it by what the body says of that field.
   */
  lemma UpdateSucceedsIff(users: seq<User>, id: nat, asStored: bool, p: UserPatch)
    requires UsersSound(users)
    ensures var (users', r) := UpdateUser(users, id, asStored, p);
      && (r.Ok? <==> id < |users| && !OtherHas(users, id, asStored, p.email))
      && (r == Err(EmailTaken) <==> p.email.Given? && p.email.value != "" && OtherHas(users, id, asStored, p.email))
      && (r == Err(UserNotFound) <==> r != Err(EmailTaken) && id >= |users|)
      && (r.Err? ==> users' == users && r.error in {EmailTaken, UserNotFound, DuplicateAddress})
      && (r.Ok? ==> users' == users[id := r.value] && IsPatched(users[id], r.value, p))
      && (r.Ok? ==> (Clears(p) <==> !p.password.Absent? && r.value.password.None?))
  {
    if p.email.Given? && p.email.value != "" { FoundIsOther(users, id, asStored, p.email.value); }
    if !p.email.Absent? { OtherHasIsTaken(users, id, p.email); }
    OtherHasUnspelled(users, id, asStored, p.email);
  }

  /**
    After an update, the user's address logs in with a password if and only if the update activates the
    user, or leaves an active one alone, and sets that password, or leaves it alone.
   */
  lemma UpdateDecidesLogin(users: seq<User>, id: nat, asStored: bool, p: UserPatch, email: string, password: string,
                           at: int)
    requires UsersSound(users) && UpdateUser(users, id, asStored, p).1.Ok?
    requires p.email == Given(email) || (p.email.Absent? && users[id].email == Some(Lower(email)))
    ensures Login(UpdateUser(users, id, asStored, p).0, email, password, at).1.Ok? <==>
      && (p.isActive == Given(true) || (p.isActive.Absent? && users[id].isActive))
      && (if p.password.Absent? then users[id].password == Some(Bcrypt(password))
          else password != "" && p.password == Given(password))
  {
    var (users', r) := UpdateUser(users, id, asStored, p);
    UpdateSucceedsIff(users, id, asStored, p);
    UpdateKeepsUsers(users, id, asStored, p);
    FoundById(users', email);
    assert users'[id] == r.value && users'[id] in users';
    assert FindByEmail(users', email) == Some(r.value);
  }

  /** The update takes the password away: it sets null, or an empty password, which is stored as it is. */
  predicate Clears(p: UserPatch) {
    p.password.Null? || p.password == Given("")
  }

  lemma UpdateKeepsUsers(users: seq<User>, id: nat, asStored: bool, p: UserPatch)
    requires UsersSound(users)
    ensures UsersSound(UpdateUser(users, id, asStored, p).0) && |UpdateUser(users, id, asStored, p).0| == |users|
    ensures !Clears(p) ==> PasswordsStay(users, UpdateUser(users, id, asStored, p).0)
  {
    var (users', r) := UpdateUser(users, id, asStored, p);
    UpdateSucceedsIff(users, id, asStored, p);
    OtherHasUnspelled(users, id, asStored, p.email);
    if r.Ok? && !p.email.Absent? {
      if p.email.Given? { LowerIsLower(p.email.value); }
      OtherHasIsTaken(users, id, p.email);
      assert forall i | 0 <= i < |users| && i != id :: users[i].email != r.value.email;
    }
  }

  lemma InvitedUserKeepsUsers(users: seq<User>, data: InviteData)
    requires UsersSound(users)
    ensures var (users', r) := InvitedUser(users, data);
      && UsersSound(users') && PasswordsStay(users, users')
      && r.Ok? && r.value.id < |users'| && users'[r.value.id] == r.value
      && r.value.email == Some(Lower(data.email)) && !r.value.isActive
  {
    FoundById(users, data.email);
    match FindByEmail(users, data.email)
    case None => AppendedUserIsSound(users, InvitedUser(users, data).1.value, data.email);
    case Some(u) => UpdateKeepsUsers(users, u.id, true, InvitePatch(data));
  }

  // ----- requests about invitations -----

  lemma FoundInvitation(invitations: seq<Invitation>, hash: TokenHash)
    requires InvitationsSound(invitations)
    ensures var r := FindByTokenHash(invitations, hash);
      r.Some? ==> r.value.id < |invitations| && invitations[r.value.id] == r.value
  {
  }

  lemma StatusChangeKeepsInvitations(invitations: seq<Invitation>, id: nat, after: Invitation)
    requires InvitationsSound(invitations) && id < |invitations| && InvitationSound(after, id)
    requires after.tokenHash == invitations[id].tokenHash && after.email == invitations[id].email
    requires after.status.PENDING? ==> invitations[id].status.PENDING?
    ensures InvitationsSound(invitations[id := after])
  {
  }

  /** What one request may do to an existing invitation: nothing, or close a PENDING one for good. */
  predicate Closes(before: Invitation, after: Invitation) {
    || after == before
    || (before.status.PENDING? && after == before.(status := EXPIRED))
    || (before.status.PENDING? && after.usedAt.Some? && after == before.(status := ACCEPTED, usedAt := after.usedAt))
  }

  ghost predicate InvitationsEvolve(invitations: seq<Invitation>, invitations': seq<Invitation>) {
    && |invitations| <= |invitations'|
    && (forall i | 0 <= i < |invitations| :: Closes(invitations[i], invitations'[i]))
  }

  /** The stored invitation that the token opens at this time: PENDING, and not lapsed. */
  predicate Opens(invitations: seq<Invitation>, inv: Invitation, token: string, at: int) {
    && inv in invitations && inv.id < |invitations| && invitations[inv.id] == inv
    && inv.tokenHash == Sha256(token) && inv.status.PENDING? && at <= inv.expiresAt
  }

  /** Invitations may lapse, but keep their users and times of use. */
  ghost predicate OnlyLapse(invitations: seq<Invitation>, invitations': seq<Invitation>) {
    && |invitations'| == |invitations|
    && InvitationsEvolve(invitations, invitations')
    && (forall i | 0 <= i < |invitations| :: invitations'[i].userId == invitations[i].userId
          && invitations'[i].usedAt == invitations[i].usedAt)
  }

  lemma ExpiringKeeps(invitations: seq<Invitation>, inv: Invitation)
    requires InvitationsSound(invitations) && inv.id < |invitations|
    requires invitations[inv.id] == inv && inv.status.PENDING?
    ensures var invitations' := invitations[inv.id := inv.(status := EXPIRED)];
      InvitationsSound(invitations') && OnlyLapse(invitations, invitations')
  {
    StatusChangeKeepsInvitations(invitations, inv.id, inv.(status := EXPIRED));
  }

  lemma FindUsableKeeps(invitations: seq<Invitation>, token: string, at: int)
    requires InvitationsSound(invitations)
    ensures var (invitations', r) := FindUsable(invitations, token, at);
      && InvitationsSound(invitations') && OnlyLapse(invitations, invitations')
      && (r.Ok? ==> invitations' == invitations && Opens(invitations, r.value, token, at))
  {
    FoundInvitation(invitations, Sha256(token));
    assert OnlyLapse(invitations, invitations);
    var found := FindByTokenHash(invitations, Sha256(token));
    if found.Some? && found.value.status.PENDING? {
      ExpiringKeeps(invitations, found.value);
    }
  }

  lemma MarkKeepsInvitations(invitations: seq<Invitation>, id: nat, usedAt: int)
    requires InvitationsSound(invitations) && id < |invitations|
    ensures InvitationsSound(MarkAccepted(invitations, id, usedAt))
  {
    StatusChangeKeepsInvitations(invitations, id, invitations[id].(status := ACCEPTED, usedAt := Some(usedAt)));
  }

  lemma AppendedInvitationIsSound(invitations: seq<Invitation>, inv: Invitation)
    requires InvitationsSound(invitations) && InvitationSound(inv, |invitations|)
    requires FindByTokenHash(invitations, inv.tokenHash).None?
    requires FindPendingByEmail(invitations, inv.email).None?
    ensures InvitationsSound(invitations + [inv])
  {
    forall i | 0 <= i < |invitations|
      ensures invitations[i].tokenHash != inv.tokenHash
      ensures !(invitations[i].status.PENDING? && invitations[i].email == inv.email)
    {
      assert invitations[i] in invitations;
    }
  }

  // ----- one request -----

  /** From one state to the next: users are added, invitations are added or closed. */
  ghost predicate Evolves(db: Db, db': Db) {
    |db.users| <= |db'.users| && InvitationsEvolve(db.invitations, db'.invitations)
  }

  lemma SoundAfterUsers(db: Db, users': seq<User>)
    requires Sound(db) && UsersSound(users') && |db.users| <= |users'|
    ensures Sound(db.(users := users')) && Evolves(db, db.(users := users'))
  {
  }

  lemma InviteKeeps(db: Db, data: InviteData, invitedBy: string, token: string, at: int, ttlDays: nat)
    requires Sound(db)
    ensures var (db', r) := Invite(db, data, invitedBy, token, at, ttlDays);
      Sound(db') && Evolves(db, db') && PasswordsStay(db.users, db'.users)
  {
    var (db', r) := Invite(db, data, invitedBy, token, at, ttlDays);
    InvitedUserKeepsUsers(db.users, data);
    SoundAfterUsers(db, InvitedUser(db.users, data).0);
    LowerIsLower(data.email);
    if r.Ok? {
      assert FindPendingByEmail(db.invitations, Lower(data.email)).None? by {
        assert FindPendingByEmail(db.invitations, data.email).None?;
      }
      AppendedInvitationIsSound(db.invitations, r.value);
    }
  }

  lemma AcceptKeeps(db: Db, token: string, data: AcceptData, at: int, usedAt: int)
    requires Sound(db)
    ensures var (db', r) := Accept(db, token, data, at, usedAt);
      Sound(db') && Evolves(db, db') && PasswordsStay(db.users, db'.users)
  {
    FindUsableKeeps(db.invitations, token, at);
    var (invitations, usable) := FindUsable(db.invitations, token, at);
    if data.password == data.confirmPassword && usable.Ok? {
      MarkKeepsInvitations(invitations, usable.value.id, usedAt);
    }
  }

  lemma DeactivateKeeps(users: seq<User>, id: nat)
    requires UsersSound(users)
    ensures UsersSound(DeactivateUser(users, id).0) && PasswordsStay(users, DeactivateUser(users, id).0)
  {
  }

  lemma LoginKeeps(users: seq<User>, email: string, password: string, at: int)
    requires UsersSound(users)
    ensures UsersSound(Login(users, email, password, at).0)
    ensures PasswordsStay(users, Login(users, email, password, at).0)
  {
    FoundById(users, email);
  }

  /** A login that succeeds answers with the user and sets the time of its last login; a failed one changes nothing. */
  lemma LoginOutcome(users: seq<User>, email: string, password: string, at: int)
    requires UsersSound(users)
    ensures var (users', r) := Login(users, email, password, at);
      && (r.Ok? <==> exists u | u in users ::
            u.email == Some(Lower(email)) && u.isActive && u.password == Some(Bcrypt(password)))
      && (r.Err? ==> r.error == BadCredentials && users' == users)
      && (r.Ok? ==>
            && r.value in users && r.value.email == Some(Lower(email)) && r.value.id < |users|
            && users' == users[r.value.id := r.value.(lastLoginAt := Some(at))])
  {
    FoundById(users, email);
    var found := FindByEmail(users, email);
    forall u | u in users && u.email == Some(Lower(email)) ensures found == Some(u) {
      var i :| 0 <= i < |users| && users[i] == u;
      assert found.value.id == i;
    }
  }

  predicate ClearsPassword(r: Request) {
    r.Update? && Clears(r.patch)
  }

  /** Every request keeps the invariant, and only moves forward; only an update can take a password away. */
  lemma ServeKeeps(db: Db, r: Request)
    requires Sound(db)
    ensures Sound(Serve(db, r).0) && Evolves(db, Serve(db, r).0)
    ensures !ClearsPassword(r) ==> PasswordsStay(db.users, Serve(db, r).0.users)
  {
    match r
    case Register(dto) =>
      CreateKeepsUsers(db.users, dto);
      SoundAfterUsers(db, CreateUser(db.users, dto).0);
    case Update(id, asStored, patch) =>
      UpdateKeepsUsers(db.users, id, asStored, patch);
      SoundAfterUsers(db, UpdateUser(db.users, id, asStored, patch).0);
    case Deactivate(id) =>
      DeactivateKeeps(db.users, id);
      SoundAfterUsers(db, DeactivateUser(db.users, id).0);
    case Invites(data, invitedBy, token, at, ttlDays) => InviteKeeps(db, data, invitedBy, token, at, ttlDays);
    case Validate(token, at) => FindUsableKeeps(db.invitations, token, at);
    case Accepts(token, acceptance, at, usedAt) => AcceptKeeps(db, token, acceptance, at, usedAt);
    case LogsIn(email, password, at) =>
      LoginKeeps(db.users, email, password, at);
      SoundAfterUsers(db, Login(db.users, email, password, at).0);
  }

  /** An invitation that is not closed already can only be closed by being accepted or by lapsing unused. */
  lemma EvolvingKeepsSettled(db: Db, db': Db)
    requires Sound(db) && Sound(db') && Evolves(db, db') && Settled(db.invitations)
    requires forall i | |db.invitations| <= i < |db'.invitations| :: db'.invitations[i].status.PENDING?
    ensures Settled(db'.invitations)
  {
    forall i | 0 <= i < |db'.invitations| && db'.invitations[i].usedAt.Some?
      ensures db'.invitations[i].status.ACCEPTED?
    {
      assert InvitationSound(db'.invitations[i], i);
      if i < |db.invitations| {
        assert InvitationSound(db.invitations[i], i) && Closes(db.invitations[i], db'.invitations[i]);
      }
    }
  }

  /** An invitation that was not there before is PENDING. */
  lemma InvitesAddPending(db: Db, r: Request)
    requires Sound(db)
    ensures var after := Serve(db, r).0.invitations;
      forall i | |db.invitations| <= i < |after| :: after[i].status.PENDING?
  {
    match r
    case Validate(token, at) => FindUsableKeeps(db.invitations, token, at);
    case Accepts(token, _, at, _) => FindUsableKeeps(db.invitations, token, at);
    case _ =>
  }

  lemma ServeKeepsSettled(db: Db, r: Request)
    requires Sound(db) && Settled(db.invitations)
    ensures Settled(Serve(db, r).0.invitations)
  {
    ServeKeeps(db, r);
    InvitesAddPending(db, r);
    EvolvingKeepsSettled(db, Serve(db, r).0);
  }

  // ----- serial runs -----

  function Step(db: Db, r: Request): Db {
    Serve(db, r).0
  }

  /** Every request is allowed in every state. */
  predicate Any(db: Db, r: Request) {
    true
  }

  const EMPTY := Db([], [])

  lemma EvolvesReflexive(a: Db)
    ensures Evolves(a, a)
  {
  }

  lemma EvolvesTransitive(a: Db, b: Db, c: Db)
    requires Evolves(a, b) && Evolves(b, c)
    ensures Evolves(a, c)
  {
    forall i | 0 <= i < |a.invitations| ensures Closes(a.invitations[i], c.invitations[i]) {
      assert Closes(a.invitations[i], b.invitations[i]) && Closes(b.invitations[i], c.invitations[i]);
    }
  }

  lemma SoundIsKept()
    ensures Keeps(Step, Sound, Any) && Relates(Step, Sound, Any, Evolves)
  {
    forall db: Db, r: Request | Sound(db) ensures Sound(Step(db, r)) && Evolves(db, Step(db, r)) {
      ServeKeeps(db, r);
    }
    forall db: Db ensures Evolves(db, db) { EvolvesReflexive(db); }
    forall a: Db, b: Db, c: Db | Evolves(a, b) && Evolves(b, c) ensures Evolves(a, c) { EvolvesTransitive(a, b, c); }
  }

  /**
    Every serial run of any requests keeps the invariant. Between any two of its states each invitation
    is untouched, or has left PENDING once, for EXPIRED or for ACCEPTED with a time of use; ACCEPTED are
    exactly the invitations that have been used.
   */
  lemma SerialRunsAreSound(db: Db, requests: seq<Request>, i: nat, j: nat)
    requires Sound(db) && i <= j <= |requests|
    ensures Sound(After(Step, db, requests, j))
    ensures Evolves(After(Step, db, requests, i), After(Step, db, requests, j))
    ensures Settled(db.invitations) ==> Settled(After(Step, db, requests, j).invitations)
  {
    SoundIsKept();
    Always(Step, Sound, Any, db, requests, j);
    Between(Step, Sound, Any, Evolves, db, requests, i, j);
    if Settled(db.invitations) {
      var both := (d: Db) => Sound(d) && Settled(d.invitations);
      forall d: Db, r: Request | both(d) ensures both(Step(d, r)) {
        ServeKeeps(d, r);
        ServeKeepsSettled(d, r);
      }
      Always(Step, both, Any, db, requests, j);
    }
  }

  lemma EmptyIsSound()
    ensures Sound(EMPTY) && Settled(EMPTY.invitations)
  {
  }

  // ----- accepting -----

  lemma OpenedIsFound(invitations: seq<Invitation>, inv: Invitation, token: string, at: int)
    requires InvitationsSound(invitations) && Opens(invitations, inv, token, at)
    ensures FindByTokenHash(invitations, Sha256(token)) == Some(inv)
  {
    StoredIsFound(invitations, inv.id);
  }

  lemma StoredIsFound(invitations: seq<Invitation>, i: nat)
    requires InvitationsSound(invitations) && i < |invitations|
    ensures FindByTokenHash(invitations, invitations[i].tokenHash) == Some(invitations[i])
  {
    var found := FindByTokenHash(invitations, invitations[i].tokenHash);
    assert invitations[i] in invitations;
    var k :| 0 <= k < |invitations| && invitations[k] == found.value;
    assert k == i;
  }

  /**
    Accepting succeeds exactly when the passwords agree and the token opens a PENDING invitation that
    has not lapsed.
   */
  lemma AcceptSucceedsIff(db: Db, token: string, data: AcceptData, at: int, usedAt: int)
    requires Sound(db)
    ensures Accept(db, token, data, at, usedAt).1.Ok? <==>
      && data.password == data.confirmPassword && !IsBlank(token)
      && exists inv | inv in db.invitations :: Opens(db.invitations, inv, token, at)
    ensures Accept(db, token, data, at, usedAt).1 != Err(UserNotFound)
  {
    FindUsableKeeps(db.invitations, token, at);
    forall inv | inv in db.invitations && Opens(db.invitations, inv, token, at)
      ensures FindByTokenHash(db.invitations, Sha256(token)) == Some(inv)
    {
      OpenedIsFound(db.invitations, inv, token, at);
    }
  }

  /** Each invitation has its number and a token of its own. */
  ghost predicate ToldApart(invitations: seq<Invitation>) {
    && (forall i | 0 <= i < |invitations| :: invitations[i].id == i)
    && (forall i, j | 0 <= i < j < |invitations| :: invitations[i].tokenHash != invitations[j].tokenHash)
  }

  /**
    What becomes of the token of a stored invitation: it opens a PENDING one that has not lapsed, marks
    one that has, and is refused on each other status in its own way. Nothing else changes.
   */
  lemma OpeningOutcome(invitations: seq<Invitation>, id: nat, token: string, at: int)
    requires ToldApart(invitations) && id < |invitations|
    requires invitations[id].tokenHash == Sha256(token) && !IsBlank(token)
    ensures var inv := invitations[id];
      var (invitations', r) := FindUsable(invitations, token, at);
      && (r.Ok? <==> inv.status.PENDING? && at <= inv.expiresAt)
      && (r.Ok? ==> r.value == inv)
      && (r.Err? ==> r.error == match inv.status
            case REVOKED => InvitationRevoked
            case ACCEPTED => InvitationAlreadyAccepted
            case _ => InvitationExpired)
      && (invitations' != invitations <==> inv.status.PENDING? && inv.expiresAt < at)
      && (invitations' != invitations ==> invitations' == invitations[id := inv.(status := EXPIRED)])
  {
    var found := FindByTokenHash(invitations, Sha256(token));
    assert invitations[id] in invitations;
    var k :| 0 <= k < |invitations| && invitations[k] == found.value;
    assert k == id;
  }

  /** A blank token, and one of no invitation, are refused, and change nothing. */
  lemma NoOpening(invitations: seq<Invitation>, token: string, at: int)
    requires IsBlank(token) || forall inv | inv in invitations :: inv.tokenHash != Sha256(token)
    ensures FindUsable(invitations, token, at) ==
      (invitations, Err(if IsBlank(token) then TokenRequired else InvitationNotFound))
  {
  }

  /** An acceptance that is refused does no more than opening the token does, and for the same reason. */
  lemma AcceptRefusal(db: Db, token: string, data: AcceptData, at: int, usedAt: int)
    requires Sound(db) && Accept(db, token, data, at, usedAt).1.Err?
    ensures var (db', r) := Accept(db, token, data, at, usedAt);
      if data.password != data.confirmPassword then db' == db && r == Err(PasswordsDiffer)
      else db'.users == db.users && Serve(db, Validate(token, at)) == (db', Refused(r.error))
  {
    FindUsableKeeps(db.invitations, token, at);
  }

  /** A successful acceptance sets the password and activates the invitation's user, and closes the invitation. */
  lemma AcceptOutcome(db: Db, token: string, data: AcceptData, at: int, usedAt: int, inv: Invitation)
    requires Sound(db) && Accept(db, token, data, at, usedAt).1.Ok?
    requires inv == FindUsable(db.invitations, token, at).1.value
    ensures Opens(db.invitations, inv, token, at) && inv.userId < |db.users|
    ensures var (db', r) := Accept(db, token, data, at, usedAt);
      && db'.invitations == db.invitations[inv.id := inv.(status := ACCEPTED, usedAt := Some(usedAt))]
      && db'.users == db.users[inv.userId := r.value]
      && r.value.isActive && r.value.password == Some(Bcrypt(data.password)) && r.value.role == Some(inv.role)
      && IsNamed(r.value.firstName, data.firstName, inv.firstName)
      && IsNamed(r.value.lastName, data.lastName, inv.lastName)
      && r.value.id == inv.userId && r.value.email == db.users[inv.userId].email
      && r.value.lastLoginAt == db.users[inv.userId].lastLoginAt
  {
    FindUsableKeeps(db.invitations, token, at);
  }

  /** The name given, unless there is none or it is empty: then the one of the invitation. */
  predicate IsNamed(name: Option<string>, given: Option<string>, invited: string) {
    name == Some(if given.None? || |given.value| == 0 then invited else given.value)
  }

  /** The token belongs to an invitation that has been used. */
  ghost predicate Spent(db: Db, token: string) {
    exists i :: 0 <= i < |db.invitations|
      && db.invitations[i].tokenHash == Sha256(token) && db.invitations[i].usedAt.Some?
  }

  lemma AcceptSpends(db: Db, token: string, data: AcceptData, at: int, usedAt: int)
    requires Sound(db) && Accept(db, token, data, at, usedAt).1.Ok?
    ensures Spent(Accept(db, token, data, at, usedAt).0, token)
  {
    FindUsableKeeps(db.invitations, token, at);
    var inv := FindUsable(db.invitations, token, at).1.value;
    AcceptOutcome(db, token, data, at, usedAt, inv);
    assert Accept(db, token, data, at, usedAt).0.invitations[inv.id].usedAt.Some?;
  }

  lemma SpentStays(db: Db, db': Db, token: string)
    requires Spent(db, token) && Evolves(db, db')
    ensures Spent(db', token)
  {
    var i :| 0 <= i < |db.invitations|
      && db.invitations[i].tokenHash == Sha256(token) && db.invitations[i].usedAt.Some?;
    assert Closes(db.invitations[i], db'.invitations[i]);
  }

  lemma SpentIsRefused(db: Db, token: string, data: AcceptData, at: int, usedAt: int)
    requires Sound(db) && Spent(db, token)
    ensures Accept(db, token, data, at, usedAt).1.Err?
  {
    var i :| 0 <= i < |db.invitations|
      && db.invitations[i].tokenHash == Sha256(token) && db.invitations[i].usedAt.Some?;
    StoredIsFound(db.invitations, i);
  }

  lemma ServedAcceptSpends(db: Db, r: Request)
    requires Sound(db) && r.Accepts? && Serve(db, r).1.UserReply?
    ensures Spent(Serve(db, r).0, r.token)
  {
    AcceptSpends(db, r.token, r.acceptance, r.at, r.usedAt);
  }

  lemma ServedSpentIsRefused(db: Db, r: Request)
    requires Sound(db) && r.Accepts? && Spent(db, r.token)
    ensures Serve(db, r).1.Refused?
  {
    SpentIsRefused(db, r.token, r.acceptance, r.at, r.usedAt);
  }

  lemma SpentLater(db: Db, requests: seq<Request>, i: nat, j: nat, token: string)
    requires Sound(db) && i <= j <= |requests| && Spent(After(Step, db, requests, i), token)
    ensures Spent(After(Step, db, requests, j), token)
  {
    SerialRunsAreSound(db, requests, i, j);
    SpentStays(After(Step, db, requests, i), After(Step, db, requests, j), token);
  }

  lemma SpentAfter(db: Db, requests: seq<Request>, i: nat)
    requires Sound(db) && i < |requests| && requests[i].Accepts?
    requires Serve(After(Step, db, requests, i), requests[i]).1.UserReply?
    ensures Spent(After(Step, db, requests, i + 1), requests[i].token)
  {
    SerialRunsAreSound(db, requests, i, i);
    ServedAcceptSpends(After(Step, db, requests, i), requests[i]);
  }

  /** In a serial run no token is accepted twice. */
  lemma AcceptedAtMostOnce(db: Db, requests: seq<Request>, i: nat, j: nat)
    requires Sound(db) && i < j < |requests|
    requires requests[i].Accepts? && requests[j].Accepts? && requests[i].token == requests[j].token
    requires Serve(After(Step, db, requests, i), requests[i]).1.UserReply?
    ensures Serve(After(Step, db, requests, j), requests[j]).1.Refused?
  {
    SpentAfter(db, requests, i);
    SpentLater(db, requests, i + 1, j, requests[j].token);
    SerialRunsAreSound(db, requests, j, j);
    ServedSpentIsRefused(After(Step, db, requests, j), requests[j]);
  }

  // ----- inviting -----

  /**
    Inviting succeeds exactly when no active user has the address, no invitation to it is PENDING,
    and the token is new. Whether the PENDING invitation has lapsed makes no difference.
   */
  lemma InviteSucceedsIff(db: Db, data: InviteData, invitedBy: string, token: string, at: int, ttlDays: nat)
    requires Sound(db)
    ensures Invite(db, data, invitedBy, token, at, ttlDays).1.Ok? <==>
      && (forall u | u in db.users :: u.email == Some(Lower(data.email)) ==> !u.isActive)
      && (forall inv | inv in db.invitations :: !(inv.email == Lower(data.email) && inv.status.PENDING?))
      && (forall inv | inv in db.invitations :: inv.tokenHash != Sha256(token))
  {
    InvitedUserKeepsUsers(db.users, data);
    FoundById(db.users, data.email);
    var found := FindByEmail(db.users, data.email);
    forall u | u in db.users && u.email == Some(Lower(data.email)) ensures found == Some(u) {
      var i :| 0 <= i < |db.users| && db.users[i] == u;
      assert found.value.id == i;
    }
  }

  /**
    A successful invitation is PENDING, lapses after the given number of days (seven when none is
    given), and is for an inactive user with the address and role asked for. An existing user keeps
    the password; every other user, and every other invitation, is left alone.
   */
  lemma InviteOutcome(db: Db, data: InviteData, invitedBy: string, token: string, at: int, ttlDays: nat)
    requires Sound(db) && Invite(db, data, invitedBy, token, at, ttlDays).1.Ok?
    ensures var (db', r) := Invite(db, data, invitedBy, token, at, ttlDays);
      var inv := r.value;
      && db'.invitations == db.invitations + [inv]
      && inv.status.PENDING? && inv.usedAt.None? && inv.tokenHash == Sha256(token) && inv.email == Lower(data.email)
      && inv.id == |db.invitations| && inv.role == data.role && inv.invitedBy == invitedBy
      && inv.firstName == data.firstName && inv.lastName == data.lastName
      && inv.expiresAt == at + (if ttlDays == 0 then 604_800_000 else ttlDays * 86_400_000)
      && inv.userId < |db'.users| && inv.userId <= |db.users| <= |db'.users| <= |db.users| + 1
      && db'.users[inv.userId].email == Some(inv.email) && !db'.users[inv.userId].isActive
      && db'.users[inv.userId].role == Some(data.role)
      && db'.users[inv.userId].firstName == Some(data.firstName)
      && db'.users[inv.userId].lastName == Some(data.lastName)
      && (forall i | 0 <= i < |db.users| && i != inv.userId :: db'.users[i] == db.users[i])
      && (if inv.userId < |db.users|
          then db'.users[inv.userId].password == db.users[inv.userId].password
               && db'.users[inv.userId].lastLoginAt == db.users[inv.userId].lastLoginAt
          else db'.users[inv.userId].password.None? && db'.users[inv.userId].lastLoginAt.None?)
  {
    InvitedUserKeepsUsers(db.users, data);
    FoundById(db.users, data.email);
  }

  /** An invitation that is refused says why; only the refusal of its token comes after the user has been written. */
  lemma InviteRefusal(db: Db, data: InviteData, invitedBy: string, token: string, at: int, ttlDays: nat)
    requires Sound(db) && Invite(db, data, invitedBy, token, at, ttlDays).1.Err?
    ensures var (db', r) := Invite(db, data, invitedBy, token, at, ttlDays);
      && (r == Err(EmailTaken) <==> exists u | u in db.users :: u.email == Some(Lower(data.email)) && u.isActive)
      && (r == Err(InvitationPending) <==> (
            r != Err(EmailTaken)
            && exists inv | inv in db.invitations :: inv.email == Lower(data.email) && inv.status.PENDING?))
      && r.error in {EmailTaken, InvitationPending, TokenTaken} && db'.invitations == db.invitations
      && (r != Err(TokenTaken) ==> db' == db)
  {
    InviteSucceedsIff(db, data, invitedBy, token, at, ttlDays);
    InvitedUserKeepsUsers(db.users, data);
    FoundById(db.users, data.email);
    var found := FindByEmail(db.users, data.email);
    forall u | u in db.users && u.email == Some(Lower(data.email)) ensures found == Some(u) {
      var i :| 0 <= i < |db.users| && db.users[i] == u;
      assert found.value.id == i;
    }
  }

  lemma InvitationBlocks(db: Db, inv: Invitation, data: InviteData, invitedBy: string, token: string, at: int,
                         ttlDays: nat)
    requires Sound(db) && inv in db.invitations && inv.status.PENDING? && inv.email == Lower(data.email)
    requires forall u | u in db.users :: u.email == Some(inv.email) ==> !u.isActive
    ensures Invite(db, data, invitedBy, token, at, ttlDays) == (db, Err(InvitationPending))
  {
  }

  /** A lapsed invitation blocks its address until somebody opens its token, which marks it and clears the way. */
  lemma LapsedInvitationBlocks(db: Db, inv: Invitation, data: InviteData, invitedBy: string, token: string,
                               fresh': string, at: int, ttlDays: nat)
    requires Sound(db) && inv in db.invitations && inv.status.PENDING? && inv.expiresAt < at
    requires inv.tokenHash == Sha256(token) && !IsBlank(token) && Lower(data.email) == inv.email
    requires forall u | u in db.users :: u.email == Some(inv.email) ==> !u.isActive
    requires forall other | other in db.invitations :: other.tokenHash != Sha256(fresh')
    ensures Invite(db, data, invitedBy, fresh', at, ttlDays).1 == Err(InvitationPending)
    ensures var (db', r) := Serve(db, Validate(token, at));
      && r == Refused(InvitationExpired)
      && Invite(db', data, invitedBy, fresh', at, ttlDays).1.Ok?
  {
    var i :| 0 <= i < |db.invitations| && db.invitations[i] == inv;
    StoredIsFound(db.invitations, i);
    InvitationBlocks(db, inv, data, invitedBy, fresh', at, ttlDays);
    var db' := db.(invitations := db.invitations[i := inv.(status := EXPIRED)]);
    assert Serve(db, Validate(token, at)) == (db', Refused(InvitationExpired));
    ServeKeeps(db, Validate(token, at));
    forall other | other in db'.invitations
      ensures !(other.email == inv.email && other.status.PENDING?)
      ensures other.tokenHash != Sha256(fresh')
    {
      var k :| 0 <= k < |db'.invitations| && db'.invitations[k] == other;
      assert k != i ==> other == db.invitations[k] && other in db.invitations;
      assert inv in db.invitations;
    }
    InviteSucceedsIff(db', data, invitedBy, fresh', at, ttlDays);
  }

  // ----- without direct updates of users -----

  /** The user of a PENDING invitation is inactive and has its address. */
  ghost predicate PendingInactive(db: Db) {
    forall i | 0 <= i < |db.invitations| && db.invitations[i].status.PENDING? ::
      && db.invitations[i].userId < |db.users|
      && db.users[db.invitations[i].userId].email == Some(db.invitations[i].email)
      && !db.users[db.invitations[i].userId].isActive
  }

  /** No other PENDING invitation is for the user of this one. */
  lemma OnlyPendingOfUser(db: Db, inv: Invitation, i: nat)
    requires Sound(db) && PendingInactive(db)
    requires inv.id < |db.invitations| && db.invitations[inv.id] == inv && inv.status.PENDING?
    requires i < |db.invitations| && i != inv.id && db.invitations[i].status.PENDING?
    ensures db.invitations[i].userId != inv.userId
  {
    assert db.invitations[i].email != inv.email;
  }

  lemma AcceptKeepsPendingInactive(db: Db, token: string, data: AcceptData, at: int, usedAt: int)
    requires Sound(db) && PendingInactive(db)
    ensures PendingInactive(Accept(db, token, data, at, usedAt).0)
  {
    FindUsableKeeps(db.invitations, token, at);
    var (db', r) := Accept(db, token, data, at, usedAt);
    if r.Ok? {
      var inv := FindUsable(db.invitations, token, at).1.value;
      AcceptOutcome(db, token, data, at, usedAt, inv);
      forall i | 0 <= i < |db.invitations| && i != inv.id && db.invitations[i].status.PENDING?
        ensures db.invitations[i].userId != inv.userId
      {
        OnlyPendingOfUser(db, inv, i);
      }
    }
  }

  lemma InviteKeepsPendingInactive(db: Db, data: InviteData, invitedBy: string, token: string, at: int, ttlDays: nat)
    requires Sound(db) && PendingInactive(db)
    ensures PendingInactive(Invite(db, data, invitedBy, token, at, ttlDays).0)
  {
    InvitedUserKeepsUsers(db.users, data);
    FoundById(db.users, data.email);
  }

  /** Users are added, or change without becoming active or changing their address. */
  ghost predicate StayInactive(users: seq<User>, users': seq<User>) {
    && |users| <= |users'|
    && forall i | 0 <= i < |users| && !users[i].isActive :: users'[i].email == users[i].email && !users'[i].isActive
  }

  lemma StayInactiveKeeps(db: Db, users': seq<User>)
    requires PendingInactive(db) && StayInactive(db.users, users')
    ensures PendingInactive(db.(users := users'))
  {
  }

  lemma ServeKeepsPendingInactive(db: Db, r: Request)
    requires Sound(db) && PendingInactive(db) && !r.Update?
    ensures PendingInactive(Serve(db, r).0)
  {
    match r
    case Register(dto) => StayInactiveKeeps(db, CreateUser(db.users, dto).0);
    case Deactivate(id) => StayInactiveKeeps(db, DeactivateUser(db.users, id).0);
    case Accepts(token, acceptance, at, usedAt) => AcceptKeepsPendingInactive(db, token, acceptance, at, usedAt);
    case Invites(data, invitedBy, token, at, ttlDays) =>
      InviteKeepsPendingInactive(db, data, invitedBy, token, at, ttlDays);
    case Validate(token, at) => FindUsableKeeps(db.invitations, token, at);
    case LogsIn(email, password, at) =>
      FoundById(db.users, email);
      StayInactiveKeeps(db, Login(db.users, email, password, at).0);
  }

  /** Without direct updates of users, the user of a PENDING invitation is inactive and has its address. */
  lemma PendingUsersStayInactive(db: Db, requests: seq<Request>, i: nat)
    requires Sound(db) && PendingInactive(db) && i <= |requests|
    requires forall k | 0 <= k < |requests| :: !requests[k].Update?
    ensures PendingInactive(After(Step, db, requests, i))
  {
    var inv := (d: Db) => Sound(d) && PendingInactive(d);
    var noUpdate := (d: Db, r: Request) => !r.Update?;
    forall d: Db, r: Request | inv(d) && noUpdate(d, r) ensures inv(Step(d, r)) {
      ServeKeeps(d, r);
      ServeKeepsPendingInactive(d, r);
    }
    Always(Step, inv, noUpdate, db, requests, i);
  }
}
