/**
  The repositories and services behind accounts, write by write, each proved against the step of
  Accounts that it performs (src/users/users.service.ts, src/users/repositories/users.repository.ts,
  src/invitations/invitations.service.ts, src/invitations/repositories/invitations.repository.ts,
  src/auth/auth.service.ts).
 */
module AccountServices {
  import opened Accounts
  import opened Common
  import opened Text

  /** No user has this address, in any letter case. */
  predicate Unused(users: seq<User>, email: string) {
    forall u | u in users :: u.email != Some(Lower(email))
  }

  /** An active account that has just been made from these data, the lowest role being the default. */
  predicate IsNewAccount(u: User, dto: NewUser, id: nat) {
    && u.id == id && u.email == Some(Lower(dto.email)) && u.password == Some(Bcrypt(dto.password)) && u.isActive
    && u.firstName == Some(dto.firstName) && u.lastName == Some(dto.lastName)
    && u.role == Some(if dto.role.Given? then dto.role.value else OPS) && u.lastLoginAt.None?
  }

  lemma {:induction false} FoundWhenAppended(users: seq<User>, u: User, email: string)
    requires Unused(users, email) && u.email == Some(Lower(email))
    ensures FindByEmail(users + [u], email) == Some(u)
    decreases |users|
  {
    if users != [] {
      assert (users + [u])[1..] == users[1..] + [u];
      FoundWhenAppended(users[1..], u, email);
    }
  }

  class UsersRepository {
    var users: seq<User>

    constructor ()
      ensures users == []
    {
      users := [];
    }

    method Create(u: User)
      modifies this
      ensures users == old(users) + [u]
    {
      users := users + [u];
    }

    /**
      Replaces the user with this id, as the store does when it applies an update document to it,
      unless its new address would break the unique index.
     */
    method UpdateById(id: nat, change: User -> User) returns (r: Result<Option<User>, Error>)
      modifies this
      ensures r == Ok(None) <==> id >= |old(users)|
      ensures r.Err? <==> id < |old(users)| && Clashes(old(users), id, change(old(users)[id]).email)
      ensures r.Err? ==> r.error == DuplicateAddress
      ensures r.Err? || r.value.None? ==> users == old(users)
      ensures r.Ok? && r.value.Some? ==>
        r.value.value == change(old(users)[id]) && users == old(users)[id := r.value.value]
    {
      if id >= |users| { return Ok(None); }
      var u := change(users[id]);
      if Clashes(users, id, u.email) { return Err(DuplicateAddress); }
      users := users[id := u];
      r := Ok(Some(u));
    }

    method SoftDeactivate(id: nat) returns (r: Option<User>)
      modifies this
      ensures r.None? <==> id >= |old(users)|
      ensures r.None? ==> users == old(users)
      ensures r.Some? ==> r.value == old(users)[id].(isActive := false) && users == old(users)[id := r.value]
    {
      var updated := UpdateById(id, (u: User) => u.(isActive := false));
      r := updated.value;
    }
  }

  class InvitationsRepository {
    var invitations: seq<Invitation>

    constructor ()
      ensures invitations == []
    {
      invitations := [];
    }

    /** Inserts unless the unique index on token hashes objects. */
    method Create(i: Invitation) returns (ok: bool)
      modifies this
      ensures ok <==> forall other | other in old(invitations) :: other.tokenHash != i.tokenHash
      ensures invitations == if ok then old(invitations) + [i] else old(invitations)
    {
      var clash := FindByTokenHash(invitations, i.tokenHash);
      ok := clash.None?;
      if ok { invitations := invitations + [i]; }
    }

    method UpdateById(id: nat, status: InvitationStatus, usedAt: Option<int>)
      modifies this
      ensures id >= |old(invitations)| ==> invitations == old(invitations)
      ensures id < |old(invitations)| ==> invitations == old(invitations)[id := old(invitations)[id].(
        status := status, usedAt := if usedAt.Some? then usedAt else old(invitations)[id].usedAt)]
    {
      if id < |invitations| {
        var i := invitations[id].(status := status);
        if usedAt.Some? { i := i.(usedAt := usedAt); }
        invitations := invitations[id := i];
      }
    }
  }

  class UsersService {
    const repository: UsersRepository

    constructor (repository: UsersRepository)
      ensures this.repository == repository
    {
      this.repository := repository;
    }

    /** Adds an active user with this address and password, unless another has the address or the role is null. */
    method Create(dto: NewUser) returns (r: Result<User, Error>)
      modifies repository
      ensures r.Ok? <==> !dto.role.Null? && Unused(old(repository.users), dto.email)
      ensures r == Err(EmailTaken) <==> !Unused(old(repository.users), dto.email)
      ensures r.Ok? ==>
        && IsNewAccount(r.value, dto, |old(repository.users)|)
        && repository.users == old(repository.users) + [r.value]
      ensures r.Err? ==> repository.users == old(repository.users)
      ensures (repository.users, r) == CreateUser(old(repository.users), dto)
    {
      var existing := FindByEmail(repository.users, dto.email);
      if existing.Some? { return Err(EmailTaken); }
      var hashedPassword := Bcrypt(dto.password);
      var role := Stored(dto.role, Some(OPS));
      if role.None? { return Err(RoleRequired); }
      var u := User(|repository.users|, Some(dto.firstName), Some(dto.lastName), Some(Lower(dto.email)),
                    Some(hashedPassword), role, true, None);
      repository.Create(u);
      r := Ok(u);
    }

    /** Adds an inactive user without a password, who therefore cannot log in, unless another has the address. */
    method CreateInvited(data: InviteData) returns (r: Result<User, Error>)
      modifies repository
      ensures r.Ok? <==> Unused(old(repository.users), data.email)
      ensures r.Ok? ==>
        && repository.users == old(repository.users) + [r.value]
        && r.value.id == |old(repository.users)| && r.value.email == Some(Lower(data.email))
        && r.value.firstName == Some(data.firstName) && r.value.lastName == Some(data.lastName)
        && r.value.role == Some(data.role) && !r.value.isActive && r.value.password.None?
        && r.value.lastLoginAt.None?
      ensures r.Err? ==> r.error == EmailTaken && repository.users == old(repository.users)
      ensures forall password, at :: r.Ok? ==> Login(repository.users, data.email, password, at).1.Err?
      ensures (repository.users, r) == CreateInvitedUser(old(repository.users), data)
    {
      var existing := FindByEmail(repository.users, data.email);
      if existing.Some? { return Err(EmailTaken); }
      var u := User(|repository.users|, Some(data.firstName), Some(data.lastName), Some(Lower(data.email)), None,
                    Some(data.role), false, None);
      FoundWhenAppended(repository.users, u, data.email);
      repository.Create(u);
      r := Ok(u);
    }

    method ActivateInvited(userId: nat, firstName: string, lastName: string, password: PasswordHash, role: Role)
      returns (r: Result<User, Error>)
      modifies repository
      ensures r.Err? <==> userId >= |old(repository.users)|
      ensures r.Err? ==> r.error == UserNotFound && repository.users == old(repository.users)
      ensures r.Ok? ==> r.value == old(repository.users)[userId].(
        firstName := Some(firstName), lastName := Some(lastName), password := Some(password), role := Some(role),
        isActive := true)
      ensures r.Ok? ==> repository.users == old(repository.users)[userId := r.value]
    {
      var u := repository.UpdateById(userId, (u: User) => Activated(u, firstName, lastName, password, role));
      if u.value.None? { return Err(UserNotFound); }
      r := Ok(u.value.value);
    }

    method Update(id: nat, asStored: bool, dto: UserPatch) returns (r: Result<User, Error>)
      modifies repository
      ensures r.Ok? ==> id < |old(repository.users)| && IsPatched(old(repository.users)[id], r.value, dto)
      ensures repository.users == if r.Ok? then old(repository.users)[id := r.value] else old(repository.users)
      ensures (repository.users, r) == UpdateUser(old(repository.users), id, asStored, dto)
    {
      if dto.email.Given? && dto.email.value != "" {
        var existing := FindByEmail(repository.users, dto.email.value);
        if existing.Some? && !(existing.value.id == id && asStored) { return Err(EmailTaken); }
      }
      var u := repository.UpdateById(id, (u: User) => Patched(u, dto));
      if u.Err? { return Err(u.error); }
      if u.value.None? { return Err(UserNotFound); }
      r := Ok(u.value.value);
    }

    /** Makes the user inactive, changes nothing else about it and no other user; the id must exist. */
    method Deactivate(id: nat) returns (r: Result<User, Error>)
      modifies repository
      ensures r.Ok? <==> id < |old(repository.users)|
      ensures r.Err? ==> r.error == UserNotFound && repository.users == old(repository.users)
      ensures r.Ok? ==> repository.users == old(repository.users)[id := r.value]
      ensures r.Ok? ==> r.value == old(repository.users)[id].(isActive := false)
      ensures (repository.users, r) == DeactivateUser(old(repository.users), id)
    {
      var u := repository.SoftDeactivate(id);
      if u.None? { return Err(UserNotFound); }
      r := Ok(u.value);
    }

    method RecordLogin(id: nat, at: int)
      modifies repository
      ensures repository.users ==
        if id < |old(repository.users)|
        then old(repository.users)[id := old(repository.users)[id].(lastLoginAt := Some(at))]
        else old(repository.users)
    {
      var _ := repository.UpdateById(id, (u: User) => u.(lastLoginAt := Some(at)));
    }
  }

  class InvitationsService {
    const invitationsRepository: InvitationsRepository
    const usersService: UsersService

    constructor (i: InvitationsRepository, u: UsersService)
      ensures invitationsRepository == i && usersService == u
    {
      invitationsRepository := i;
      usersService := u;
    }

    ghost function State(): Db
      reads invitationsRepository, usersService.repository
    {
      Db(usersService.repository.users, invitationsRepository.invitations)
    }

    method InviteUser(data: InviteData, invitedBy: string, token: string, at: int, ttlDays: nat)
      returns (r: Result<Invitation, Error>)
      modifies invitationsRepository, usersService.repository
      ensures (State(), r) == Invite(old(State()), data, invitedBy, token, at, ttlDays)
    {
      var existingUser := FindByEmail(usersService.repository.users, data.email);
      if existingUser.Some? && existingUser.value.isActive { return Err(EmailTaken); }
      var pending := FindPendingByEmail(invitationsRepository.invitations, data.email);
      if pending.Some? { return Err(InvitationPending); }

      var tokenHash := Sha256(token);
      var expiresAt := Expiry(at, ttlDays);
      var user: Result<User, Error>;
      if existingUser.None? {
        user := usersService.CreateInvited(data);
      } else {
        user := usersService.Update(existingUser.value.id, true, InvitePatch(data));
      }
      if user.Err? { return Err(user.error); }

      var invitation := Invitation(|invitationsRepository.invitations|, Lower(data.email), data.firstName,
                                   data.lastName, data.role, PENDING, tokenHash, expiresAt, None, invitedBy,
                                   user.value.id);
      var ok := invitationsRepository.Create(invitation);
      if !ok { return Err(TokenTaken); }
      r := Ok(invitation);
    }

    method FindUsableInvite(token: string, at: int) returns (r: Result<Invitation, Error>)
      modifies invitationsRepository
      ensures (invitationsRepository.invitations, r) == FindUsable(old(invitationsRepository.invitations), token, at)
    {
      if IsBlank(token) { return Err(TokenRequired); }
      var found := FindByTokenHash(invitationsRepository.invitations, Sha256(token));
      if found.None? { return Err(InvitationNotFound); }
      var invitation := found.value;
      if invitation.status.REVOKED? { return Err(InvitationRevoked); }
      if invitation.status.ACCEPTED? { return Err(InvitationAlreadyAccepted); }
      if invitation.status.EXPIRED? || invitation.expiresAt < at {
        if invitation.status.PENDING? {
          invitationsRepository.UpdateById(invitation.id, EXPIRED, None);
        }
        return Err(InvitationExpired);
      }
      r := Ok(invitation);
    }

    method AcceptInvite(token: string, data: AcceptData, at: int, usedAt: int) returns (r: Result<User, Error>)
      modifies invitationsRepository, usersService.repository
      ensures (State(), r) == Accept(old(State()), token, data, at, usedAt)
    {
      if data.password != data.confirmPassword { return Err(PasswordsDiffer); }
      var usable := FindUsableInvite(token, at);
      if usable.Err? { return Err(usable.error); }
      var invitation := usable.value;
      r := usersService.ActivateInvited(invitation.userId, OrElse(data.firstName, invitation.firstName),
        OrElse(data.lastName, invitation.lastName), Bcrypt(data.password), invitation.role);
      if r.Err? { return; }
      invitationsRepository.UpdateById(invitation.id, ACCEPTED, Some(usedAt));
    }
  }

  function WithDefault(role: Field<Role>): Field<Role> {
    if role.Given? then role else Given(OPS)
  }

  class AuthService {
    const usersService: UsersService

    constructor (u: UsersService)
      ensures usersService == u
    {
      usersService := u;
    }

    /** Registers an active account, after which its address and password log in, in any letter case of the address. */
    method RegisterUser(dto: NewUser) returns (r: Result<User, Error>)
      modifies usersService.repository
      ensures r.Ok? <==> Unused(old(usersService.repository.users), dto.email)
      ensures r.Ok? ==>
        && IsNewAccount(r.value, dto, |old(usersService.repository.users)|)
        && usersService.repository.users == old(usersService.repository.users) + [r.value]
      ensures r.Err? ==> r.error == EmailTaken && usersService.repository.users == old(usersService.repository.users)
      ensures forall email, password, at :: r.Ok? && Lower(email) == Lower(dto.email) ==>
        (Login(usersService.repository.users, email, password, at).1.Ok? <==> password == dto.password)
      ensures (usersService.repository.users, r) ==
        CreateUser(old(usersService.repository.users), dto.(role := WithDefault(dto.role)))
    {
      ghost var before := usersService.repository.users;
      r := usersService.Create(dto.(role := WithDefault(dto.role)));
      if r.Ok? {
        forall email | Lower(email) == Lower(dto.email)
          ensures FindByEmail(usersService.repository.users, email) == Some(r.value)
        {
          FoundWhenAppended(before, r.value, email);
        }
      }
    }

    method LoginUser(email: string, password: string, at: int) returns (r: Result<User, Error>)
      modifies usersService.repository
      ensures (usersService.repository.users, r) == Login(old(usersService.repository.users), email, password, at)
    {
      var user := FindByEmail(usersService.repository.users, email);
      if user.None? || !user.value.isActive || user.value.password.None? { return Err(BadCredentials); }
      if user.value.password.value != Bcrypt(password) { return Err(BadCredentials); }
      usersService.RecordLogin(user.value.id, at);
      r := Ok(user.value);
    }
  }

  /** The routes of the three controllers, on services that share their stores. */
  class Routes {
    const authService: AuthService
    const invitationsService: InvitationsService

    constructor (a: AuthService, i: InvitationsService)
      requires a.usersService == i.usersService
      ensures authService == a && invitationsService == i
    {
      authService := a;
      invitationsService := i;
    }

    /** Each request, served write by write, does to the stores what it does as one step, and has its reply. */
    method Handle(r: Request) returns (reply: Reply)
      requires authService.usersService == invitationsService.usersService
      modifies invitationsService.invitationsRepository, invitationsService.usersService.repository
      ensures (invitationsService.State(), reply) == Serve(old(invitationsService.State()), r)
    {
      var users := authService.usersService;
      match r
      case Register(dto) =>
        var u := users.Create(dto);
        reply := ReplyUser(u);
      case Update(id, asStored, patch) =>
        var u := users.Update(id, asStored, patch);
        reply := ReplyUser(u);
      case Deactivate(id) =>
        var u := users.Deactivate(id);
        reply := ReplyUser(u);
      case Invites(data, invitedBy, token, at, ttlDays) =>
        var i := invitationsService.InviteUser(data, invitedBy, token, at, ttlDays);
        reply := ReplyInvitation(i);
      case Validate(token, at) =>
        var i := invitationsService.FindUsableInvite(token, at);
        reply := ReplyInvitation(i);
      case Accepts(token, acceptance, at, usedAt) =>
        var u := invitationsService.AcceptInvite(token, acceptance, at, usedAt);
        reply := ReplyUser(u);
      case LogsIn(email, password, at) =>
        var u := authService.LoginUser(email, password, at);
        reply := ReplyUser(u);
    }
  }
}
