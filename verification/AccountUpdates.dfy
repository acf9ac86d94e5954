/**
  What an update of a user can take away. The validation of an update lets null pass in every field
  (src/users/dto/create-user.dto.ts:38-49), and the service stores it (src/users/users.service.ts:139-164).
 */
module AccountUpdates {
  import opened AccountRuns
  import opened Accounts
  import opened Common
  import opened Runs
  import opened Text

  /** Every invitation that has been used is for a user who has a password. */
  predicate Passworded(db: Db) {
    forall i | 0 <= i < |db.invitations| && db.invitations[i].usedAt.Some? ::
      HasPassword(db.users, db.invitations[i].userId)
  }

  predicate HasPassword(users: seq<User>, id: nat) {
    id < |users| && users[id].password.Some?
  }

  /** Every user has an address. */
  predicate Addressed(db: Db) {
    forall i | 0 <= i < |db.users| :: db.users[i].email.Some?
  }

  /** Some invitation for this user has been used. */
  predicate Joined(db: Db, id: nat) {
    exists i | 0 <= i < |db.invitations| :: db.invitations[i].userId == id && db.invitations[i].usedAt.Some?
  }

  /** An update that takes the password of a user who joined by invitation, and that will not be refused. */
  predicate TakesPassword(db: Db, r: Request) {
    r.Update? && Clears(r.patch) && Joined(db, r.id) && !OtherHas(db.users, r.id, r.asStored, r.patch.email)
  }

  /** An update that takes the address of an existing user. */
  predicate TakesAddress(db: Db, r: Request) {
    r.Update? && r.patch.email.Null? && r.id < |db.users|
  }

  lemma PasswordsStayKeeps(db: Db, users': seq<User>)
    requires Passworded(db) && PasswordsStay(db.users, users')
    ensures Passworded(db.(users := users'))
  {
    forall i | 0 <= i < |db.invitations| && db.invitations[i].usedAt.Some?
      ensures HasPassword(users', db.invitations[i].userId)
    {
      assert HasPassword(db.users, db.invitations[i].userId);
    }
  }

  lemma AcceptKeepsPassworded(db: Db, token: string, data: AcceptData, at: int, usedAt: int)
    requires Sound(db) && Passworded(db)
    ensures Passworded(Accept(db, token, data, at, usedAt).0)
  {
    var (db', r) := Accept(db, token, data, at, usedAt);
    AcceptKeeps(db, token, data, at, usedAt);
    FindUsableKeeps(db.invitations, token, at);
    PasswordsStayKeeps(db, db'.users);
    if r.Ok? {
      AcceptOutcome(db, token, data, at, usedAt, FindUsable(db.invitations, token, at).1.value);
    }
    forall i | 0 <= i < |db'.invitations| && db'.invitations[i].usedAt.Some?
      ensures HasPassword(db'.users, db'.invitations[i].userId)
    {
      assert Closes(db.invitations[i], db'.invitations[i]);
      assert db.invitations[i].usedAt.Some? ==> HasPassword(db.users, db.invitations[i].userId);
    }
  }

  lemma UpdateKeepsPasswordedIff(db: Db, r: Request)
    requires Sound(db) && Passworded(db) && r.Update?
    ensures Passworded(Serve(db, r).0) <==> !TakesPassword(db, r)
  {
    var users' := UpdateUser(db.users, r.id, r.asStored, r.patch).0;
    UpdateSucceedsIff(db.users, r.id, r.asStored, r.patch);
    if TakesPassword(db, r) {
      var i :| 0 <= i < |db.invitations| && db.invitations[i].userId == r.id && db.invitations[i].usedAt.Some?;
      assert HasPassword(db.users, db.invitations[i].userId);
      assert !HasPassword(users', db.invitations[i].userId);
    } else {
      forall i | 0 <= i < |db.invitations| && db.invitations[i].usedAt.Some?
        ensures HasPassword(users', db.invitations[i].userId)
      {
        assert HasPassword(db.users, db.invitations[i].userId);
        if db.invitations[i].userId == r.id { assert Joined(db, r.id); }
      }
    }
  }

  /** Of all requests, exactly these updates leave a used invitation whose user has no password. */
  lemma PasswordsKeptIff(db: Db, r: Request)
    requires Sound(db) && Passworded(db)
    ensures Passworded(Serve(db, r).0) <==> !TakesPassword(db, r)
  {
    var db' := Serve(db, r).0;
    ServeKeeps(db, r);
    match r
    case Update(_, _, _) => UpdateKeepsPasswordedIff(db, r);
    case Accepts(token, acceptance, at, usedAt) => AcceptKeepsPassworded(db, token, acceptance, at, usedAt);
    case Validate(token, at) => FindUsableKeeps(db.invitations, token, at);
    case _ => PasswordsStayKeeps(db, db'.users);
  }

  /** Each user has the address from before, or a new one. */
  predicate AddressesStay(users: seq<User>, users': seq<User>) {
    forall i | 0 <= i < |users'| :: users'[i].email.Some? || (i < |users| && users'[i].email == users[i].email)
  }

  lemma AddressesStayKeeps(db: Db, db': Db)
    requires Addressed(db) && AddressesStay(db.users, db'.users)
    ensures Addressed(db')
  {
  }

  lemma InviteKeepsAddresses(users: seq<User>, data: InviteData)
    requires UsersSound(users)
    ensures AddressesStay(users, InvitedUser(users, data).0)
  {
    InvitedUserKeepsUsers(users, data);
    FoundById(users, data.email);
  }

  lemma AcceptKeepsAddresses(db: Db, token: string, data: AcceptData, at: int, usedAt: int)
    requires Sound(db)
    ensures AddressesStay(db.users, Accept(db, token, data, at, usedAt).0.users)
  {
    FindUsableKeeps(db.invitations, token, at);
    if Accept(db, token, data, at, usedAt).1.Ok? {
      AcceptOutcome(db, token, data, at, usedAt, FindUsable(db.invitations, token, at).1.value);
    }
  }

  lemma UpdateKeepsAddressesIff(db: Db, r: Request)
    requires Sound(db) && Addressed(db) && r.Update?
    ensures Addressed(Serve(db, r).0) <==> !TakesAddress(db, r)
  {
    var (users', u) := UpdateUser(db.users, r.id, r.asStored, r.patch);
    UpdateSucceedsIff(db.users, r.id, r.asStored, r.patch);
    if TakesAddress(db, r) {
      assert !OtherHas(db.users, r.id, r.asStored, r.patch.email);
      assert users'[r.id].email.None?;
    } else {
      AddressesStayKeeps(db, db.(users := users'));
    }
  }

  lemma OthersKeepAddresses(db: Db, r: Request)
    requires Sound(db) && !r.Update?
    ensures AddressesStay(db.users, Serve(db, r).0.users)
  {
    match r
    case Invites(data, _, _, _, _) => InviteKeepsAddresses(db.users, data);
    case LogsIn(email, _, _) => FoundById(db.users, email);
    case Accepts(token, acceptance, at, usedAt) => AcceptKeepsAddresses(db, token, acceptance, at, usedAt);
    case _ =>
  }

  /** Of all requests, exactly these updates leave a user without an address. */
  lemma AddressesKeptIff(db: Db, r: Request)
    requires Sound(db) && Addressed(db)
    ensures Addressed(Serve(db, r).0) <==> !TakesAddress(db, r)
  {
    if r.Update? {
      UpdateKeepsAddressesIff(db, r);
    } else {
      OthersKeepAddresses(db, r);
      AddressesStayKeeps(db, Serve(db, r).0);
    }
  }

  predicate Intact(db: Db) {
    Passworded(db) && Addressed(db)
  }

  predicate Harmless(db: Db, r: Request) {
    !TakesPassword(db, r) && !TakesAddress(db, r)
  }

  /**
    A serial run keeps, in all of its states, a password for every user of a used invitation and an
    address for every user, if and only if no update in it takes one away from the store it meets.
   */
  lemma RunsAreIntactIff(db: Db, requests: seq<Request>)
    requires Sound(db) && Intact(db)
    ensures (forall i: nat | i <= |requests| :: Intact(After(Step, db, requests, i)))
      <==> Allowed(Step, Harmless, db, requests)
  {
    forall d: Db, r: Request | Sound(d) ensures Sound(Step(d, r)) { ServeKeeps(d, r); }
    forall d: Db, r: Request | Sound(d) && Intact(d) ensures Intact(Step(d, r)) <==> Harmless(d, r) {
      PasswordsKeptIff(d, r);
      AddressesKeptIff(d, r);
    }
    AlwaysIff(Step, Sound, Intact, Harmless, db, requests);
  }

  const NULL_PASSWORD := UserPatch(Absent, Absent, Absent, Null, Absent, Absent)

  /** A body of {"password": null} passes validation, succeeds, and locks out any user who joined by invitation. */
  lemma NullPasswordLocksOut(db: Db, id: nat, email: string, password: string, at: int)
    requires Sound(db) && Passworded(db) && Joined(db, id) && id < |db.users|
    requires db.users[id].email == Some(Lower(email))
    ensures var (db', reply) := Serve(db, Update(id, true, NULL_PASSWORD));
      && reply.UserReply? && !Passworded(db')
      && Serve(db', LogsIn(email, password, at)).1 == Refused(BadCredentials)
  {
    var r := Update(id, true, NULL_PASSWORD);
    PasswordsKeptIff(db, r);
    UpdateSucceedsIff(db.users, id, true, NULL_PASSWORD);
    ServeKeeps(db, r);
    var users' := Serve(db, r).0.users;
    FoundById(users', email);
    assert users'[id] in users';
  }
}
