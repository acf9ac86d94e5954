/**
  Users and invitations, and what each request does to them as one step
  (src/users, src/invitations, src/auth). Passwords and tokens are hashed by functions that are
  taken to be injective; mail, signed tokens and the document mappers are not part of this model.
 */
module Accounts {
  import opened Common
  import opened Text

  datatype Role = SUPER_ADMIN | ADMIN | DEVOPS | OPS

  datatype PasswordHash = Bcrypt(of: string)

  datatype TokenHash = Sha256(of: string)

  /** A stored user. An update can set any field to null; a null flag counts as false wherever it is read. */
  datatype User = User(
    id: nat, firstName: Option<string>, lastName: Option<string>, email: Option<string>,
    password: Option<PasswordHash>, role: Option<Role>, isActive: bool, lastLoginAt: Option<int>)

  datatype InvitationStatus = PENDING | ACCEPTED | REVOKED | EXPIRED

  datatype Invitation = Invitation(
    id: nat, email: string, firstName: string, lastName: string, role: Role, status: InvitationStatus,
    tokenHash: TokenHash, expiresAt: int, usedAt: Option<int>, invitedBy: string, userId: nat)

  datatype Error =
    | EmailTaken | DuplicateAddress | RoleRequired | InvitationPending | TokenTaken | PasswordsDiffer | TokenRequired
    | InvitationNotFound | InvitationRevoked | InvitationAlreadyAccepted | InvitationExpired
    | UserNotFound | BadCredentials

  datatype NewUser = NewUser(
    firstName: string, lastName: string, email: string, password: string, role: Field<Role>)

  /** The body of an update. Every field is optional, and the validation of an optional field lets null pass. */
  datatype UserPatch = UserPatch(
    firstName: Field<string>, lastName: Field<string>, email: Field<string>,
    password: Field<string>, role: Field<Role>, isActive: Field<bool>)

  datatype InviteData = InviteData(email: string, firstName: string, lastName: string, role: Role)

  datatype AcceptData = AcceptData(
    password: string, confirmPassword: string, firstName: Option<string>, lastName: Option<string>)

  /** The text given, unless it is absent or empty. */
  function OrElse(o: Option<string>, default: string): string {
    if o.Some? && o.value != "" then o.value else default
  }

  // ----- queries -----

  /** The first user with this address, in lower case. */
  function FindByEmail(users: seq<User>, email: string): (r: Option<User>)
    ensures r.Some? ==> r.value in users && r.value.email == Some(Lower(email))
    ensures r.None? ==> forall u | u in users :: u.email != Some(Lower(email))
  {
    if users == [] then None
    else if users[0].email == Some(Lower(email)) then Some(users[0])
    else FindByEmail(users[1..], email)
  }

  /** Another user has this address; the index on addresses is unique, and takes null for an address too. */
  predicate AddressTaken(users: seq<User>, id: nat, email: Option<string>) {
    exists i | 0 <= i < |users| :: i != id && users[i].email == email
  }

  /** Giving this address to the user would break the index. */
  predicate Clashes(users: seq<User>, id: nat, email: Option<string>)
    requires id < |users|
  {
    email != users[id].email && AddressTaken(users, id, email)
  }

  function FindPendingByEmail(invitations: seq<Invitation>, email: string): (r: Option<Invitation>)
    ensures r.Some? ==> r.value in invitations && r.value.email == Lower(email) && r.value.status.PENDING?
    ensures r.None? ==> forall i | i in invitations :: !(i.email == Lower(email) && i.status.PENDING?)
  {
    if invitations == [] then None
    else if invitations[0].email == Lower(email) && invitations[0].status.PENDING? then Some(invitations[0])
    else FindPendingByEmail(invitations[1..], email)
  }

  function FindByTokenHash(invitations: seq<Invitation>, hash: TokenHash): (r: Option<Invitation>)
    ensures r.Some? ==> r.value in invitations && r.value.tokenHash == hash
    ensures r.None? ==> forall i | i in invitations :: i.tokenHash != hash
  {
    if invitations == [] then None
    else if invitations[0].tokenHash == hash then Some(invitations[0])
    else FindByTokenHash(invitations[1..], hash)
  }

  // ----- requests about users -----

  /** A role that is left out becomes the lowest one; a role of null is refused by the schema. */
  function CreateUser(users: seq<User>, dto: NewUser): (seq<User>, Result<User, Error>) {
    if FindByEmail(users, dto.email).Some? then (users, Err(EmailTaken)) else
    var role := Stored(dto.role, Some(OPS));
    if role.None? then (users, Err(RoleRequired)) else
    var u := User(|users|, Some(dto.firstName), Some(dto.lastName), Some(Lower(dto.email)),
                  Some(Bcrypt(dto.password)), role, true, None);
    (users + [u], Ok(u))
  }

  function CreateInvitedUser(users: seq<User>, data: InviteData): (seq<User>, Result<User, Error>) {
    if FindByEmail(users, data.email).Some? then (users, Err(EmailTaken)) else
    var u := User(|users|, Some(data.firstName), Some(data.lastName), Some(Lower(data.email)), None,
                  Some(data.role), false, None);
    (users + [u], Ok(u))
  }

  function HashOf(password: string): Option<PasswordHash> {
    if password == "" then None else Some(Bcrypt(password))
  }

  /**
    The fields a patch sets are replaced. A password of null, or an empty one, is stored without
    being hashed, and counts as none everywhere.
   */
  function Patched(u: User, p: UserPatch): User {
    u.(firstName := Stored(p.firstName, u.firstName),
       lastName := Stored(p.lastName, u.lastName),
       email := match p.email { case Given(e) => Some(Lower(e)) case Null => None case Absent => u.email },
       password := match p.password { case Given(pw) => HashOf(pw) case Null => None case Absent => u.password },
       role := Stored(p.role, u.role),
       isActive := match p.isActive { case Given(b) => b case Null => false case Absent => u.isActive })
  }

  /** A field that is left out keeps its value, one of null loses it, any other gets what is given. */
  predicate Sets<T(==)>(f: Field<T>, before: Option<T>, after: Option<T>) {
    && (f.Absent? ==> after == before)
    && (f.Null? ==> after.None?)
    && (f.Given? ==> after.Some? && after.value == f.value)
  }

  /** Of the text that is given for a password its hash is stored, and nothing for an empty one. */
  predicate SetsPassword(f: Field<string>, before: Option<PasswordHash>, after: Option<PasswordHash>) {
    && (f.Absent? ==> after == before)
    && (f.Null? || f == Given("") ==> after.None?)
    && (f.Given? && f.value != "" ==> after == Some(Bcrypt(f.value)))
  }

  predicate SetsFlag(f: Field<bool>, before: bool, after: bool) {
    && (f.Absent? ==> after == before)
    && (!f.Absent? ==> (after <==> f == Given(true)))
  }

  /** The second user is the first one after this update. */
  predicate IsPatched(u: User, u': User, p: UserPatch) {
    && u'.id == u.id && u'.lastLoginAt == u.lastLoginAt
    && Sets(p.firstName, u.firstName, u'.firstName) && Sets(p.lastName, u.lastName, u'.lastName)
    && Sets(if p.email.Given? then Given(Lower(p.email.value)) else p.email, u.email, u'.email)
    && SetsPassword(p.password, u.password, u'.password)
    && Sets(p.role, u.role, u'.role) && SetsFlag(p.isActive, u.isActive, u'.isActive)
  }

  /**
    The id comes from the route, where its hexadecimal digits may be in either case; the service
    compares it with stored ids as it is spelled, the store by its value.
   */
  function UpdateUser(users: seq<User>, id: nat, asStored: bool, p: UserPatch): (seq<User>, Result<User, Error>) {
    var existing := if p.email.Given? && p.email.value != "" then FindByEmail(users, p.email.value) else None;
    if existing.Some? && !(existing.value.id == id && asStored) then (users, Err(EmailTaken))
    else if id >= |users| then (users, Err(UserNotFound))
    else if Clashes(users, id, Patched(users[id], p).email) then (users, Err(DuplicateAddress))
    else (users[id := Patched(users[id], p)], Ok(Patched(users[id], p)))
  }

  function DeactivateUser(users: seq<User>, id: nat): (seq<User>, Result<User, Error>) {
    if id >= |users| then (users, Err(UserNotFound))
    else (users[id := users[id].(isActive := false)], Ok(users[id].(isActive := false)))
  }

  function Activated(u: User, firstName: string, lastName: string, password: PasswordHash, role: Role): User {
    u.(firstName := Some(firstName), lastName := Some(lastName), password := Some(password), role := Some(role),
       isActive := true)
  }

  function Login(users: seq<User>, email: string, password: string, at: int): (seq<User>, Result<User, Error>) {
    match FindByEmail(users, email)
    case None => (users, Err(BadCredentials))
    case Some(u) =>
      if !u.isActive || u.password != Some(Bcrypt(password)) then (users, Err(BadCredentials))
      else (if u.id < |users| then users[u.id := users[u.id].(lastLoginAt := Some(at))] else users, Ok(u))
  }

  // ----- requests about invitations -----

  datatype Db = Db(users: seq<User>, invitations: seq<Invitation>)

  /** An unset or zero number of days means seven. */
  function Expiry(at: int, ttlDays: nat): int {
    at + (if ttlDays == 0 then 7 else ttlDays) * DAY_MS
  }

  function InvitePatch(data: InviteData): UserPatch {
    UserPatch(Given(data.firstName), Given(data.lastName), Absent, Absent, Given(data.role), Given(false))
  }

  /** The user an invitation is for: a new one without a password, or the inactive one that has the address. */
  function InvitedUser(users: seq<User>, data: InviteData): (seq<User>, Result<User, Error>) {
    match FindByEmail(users, data.email)
    case None => CreateInvitedUser(users, data)
    case Some(u) => UpdateUser(users, u.id, true, InvitePatch(data))
  }

  function Invite(db: Db, data: InviteData, invitedBy: string, token: string, at: int, ttlDays: nat)
    : (Db, Result<Invitation, Error>)
  {
    var existing := FindByEmail(db.users, data.email);
    if existing.Some? && existing.value.isActive then (db, Err(EmailTaken)) else
    if FindPendingByEmail(db.invitations, data.email).Some? then (db, Err(InvitationPending)) else
    var (users, invited) := InvitedUser(db.users, data);
    if invited.Err? then (db, Err(invited.error)) else
    // The index on token hashes is unique, and the user has been written by then.
    if FindByTokenHash(db.invitations, Sha256(token)).Some? then (db.(users := users), Err(TokenTaken)) else
    var i := Invitation(|db.invitations|, Lower(data.email), data.firstName, data.lastName, data.role, PENDING,
                        Sha256(token), Expiry(at, ttlDays), None, invitedBy, invited.value.id);
    (Db(users, db.invitations + [i]), Ok(i))
  }

  /** What the lookup of a token makes of the invitation it has read. */
  datatype Verdict = Usable(invitation: Invitation) | Overdue(id: nat) | Unusable(error: Error)

  function Judged(found: Option<Invitation>, at: int): Verdict {
    match found
    case None => Unusable(InvitationNotFound)
    case Some(i) =>
      if i.status.REVOKED? then Unusable(InvitationRevoked)
      else if i.status.ACCEPTED? then Unusable(InvitationAlreadyAccepted)
      else if i.status.EXPIRED? then Unusable(InvitationExpired)
      else if i.expiresAt < at then Overdue(i.id)
      else Usable(i)
  }

  /** The write that marks an invitation as lapsed, whatever has become of it since it was read. */
  function MarkExpired(invitations: seq<Invitation>, id: nat): seq<Invitation> {
    if id < |invitations| then invitations[id := invitations[id].(status := EXPIRED)] else invitations
  }

  /** The invitation a token opens; a pending one that has lapsed is marked on the way. */
  function FindUsable(invitations: seq<Invitation>, token: string, at: int)
    : (seq<Invitation>, Result<Invitation, Error>)
  {
    if IsBlank(token) then (invitations, Err(TokenRequired)) else
    match Judged(FindByTokenHash(invitations, Sha256(token)), at)
    case Usable(i) => (invitations, Ok(i))
    case Overdue(id) => (MarkExpired(invitations, id), Err(InvitationExpired))
    case Unusable(e) => (invitations, Err(e))
  }

  function ActivateInvited(users: seq<User>, i: Invitation, data: AcceptData): (seq<User>, Result<User, Error>) {
    if i.userId >= |users| then (users, Err(UserNotFound)) else
    var u := Activated(users[i.userId], OrElse(data.firstName, i.firstName), OrElse(data.lastName, i.lastName),
                       Bcrypt(data.password), i.role);
    (users[i.userId := u], Ok(u))
  }

  function MarkAccepted(invitations: seq<Invitation>, id: nat, usedAt: int): seq<Invitation> {
    if id < |invitations|
    then invitations[id := invitations[id].(status := ACCEPTED, usedAt := Some(usedAt))]
    else invitations
  }

  function Accept(db: Db, token: string, data: AcceptData, at: int, usedAt: int): (Db, Result<User, Error>) {
    if data.password != data.confirmPassword then (db, Err(PasswordsDiffer)) else
    var (invitations, usable) := FindUsable(db.invitations, token, at);
    if usable.Err? then (Db(db.users, invitations), Err(usable.error)) else
    var (users, activated) := ActivateInvited(db.users, usable.value, data);
    if activated.Err? then (Db(users, invitations), activated)
    else (Db(users, MarkAccepted(invitations, usable.value.id, usedAt)), activated)
  }

  // ----- all requests -----

  datatype Request =
    | Register(dto: NewUser)
    | Update(id: nat, asStored: bool, patch: UserPatch)
    | Deactivate(id: nat)
    | Invites(data: InviteData, invitedBy: string, token: string, at: int, ttlDays: nat)
    | Validate(token: string, at: int)
    | Accepts(token: string, acceptance: AcceptData, at: int, usedAt: int)
    | LogsIn(email: string, password: string, at: int)

  datatype Reply =
    | UserReply(user: User)
    | InvitationReply(invitation: Invitation)
    | Refused(error: Error)

  function ReplyUser(r: Result<User, Error>): Reply {
    match r
    case Ok(u) => UserReply(u)
    case Err(e) => Refused(e)
  }

  function ReplyInvitation(r: Result<Invitation, Error>): Reply {
    match r
    case Ok(i) => InvitationReply(i)
    case Err(e) => Refused(e)
  }

  function Serve(db: Db, r: Request): (Db, Reply) {
    match r
    case Register(dto) =>
      var (users, u) := CreateUser(db.users, dto);
      (db.(users := users), ReplyUser(u))
    case Update(id, asStored, patch) =>
      var (users, u) := UpdateUser(db.users, id, asStored, patch);
      (db.(users := users), ReplyUser(u))
    case Deactivate(id) =>
      var (users, u) := DeactivateUser(db.users, id);
      (db.(users := users), ReplyUser(u))
    case Invites(data, invitedBy, token, at, ttlDays) =>
      var (db', i) := Invite(db, data, invitedBy, token, at, ttlDays);
      (db', ReplyInvitation(i))
    case Validate(token, at) =>
      var (invitations, i) := FindUsable(db.invitations, token, at);
      (db.(invitations := invitations), ReplyInvitation(i))
    case Accepts(token, acceptance, at, usedAt) =>
      var (db', u) := Accept(db, token, acceptance, at, usedAt);
      (db', ReplyUser(u))
    case LogsIn(email, password, at) =>
      var (users, u) := Login(db.users, email, password, at);
      (db.(users := users), ReplyUser(u))
  }
}
