/**
  Login against the visible history: an observer who sees only requests and replies can keep, for
  each user, the address, the latest password and whether the account is active, and predict every login.
 */
module LoginLedger {
  import opened AccountRuns
  import opened Accounts
  import opened Common
  import opened Runs
  import opened Text

  datatype Account = Account(email: Option<string>, password: Option<string>, active: bool)

  type Ledger = map<nat, Account>

  /**
    What the observer writes down after a request and its reply. Of a reply only two things are used:
    whether the request went through, and the number of the user.
   */
  function Observe(ledger: Ledger, r: Request, reply: Reply): Ledger {
    match (r, reply)
    case (Register(dto), UserReply(u)) => ledger[u.id := Account(Some(Lower(dto.email)), Some(dto.password), true)]
    case (Update(id, _, patch), UserReply(_)) => ledger[id := Amended(Known(ledger, id), patch)]
    case (Deactivate(id), UserReply(_)) => ledger[id := Known(ledger, id).(active := false)]
    case (Invites(data, _, _, _, _), InvitationReply(inv)) =>
      ledger[inv.userId := Account(Some(Lower(data.email)), Known(ledger, inv.userId).password, false)]
    case (Accepts(_, acceptance, _, _), UserReply(u)) =>
      ledger[u.id := Known(ledger, u.id).(password := Some(acceptance.password), active := true)]
    case _ => ledger
  }

  function Known(ledger: Ledger, id: nat): Account {
    if id in ledger then ledger[id] else Account(None, None, false)
  }

  /** An account after an update that went through. */
  function Amended(a: Account, p: UserPatch): Account {
    Account(
      if p.email.Absent? then a.email else NewAddress(p.email),
      if p.password.Absent? then a.password
      else if p.password.Given? && p.password.value != "" then Some(p.password.value) else None,
      if p.isActive.Absent? then a.active else p.isActive == Given(true))
  }

  function Plain(hash: Option<PasswordHash>): Option<string> {
    match hash
    case None => None
    case Some(h) => Some(h.of)
  }

  /** The ledger agrees with the store. */
  ghost predicate Faithful(ledger: Ledger, users: seq<User>) {
    && (forall i: nat :: i in ledger <==> i < |users|)
    && (forall i: nat | i < |users| :: i in ledger && ledger[i] == AccountOf(users[i]))
  }

  function AccountOf(u: User): Account {
    Account(u.email, Plain(u.password), u.isActive)
  }

  /** Logging in is possible exactly when some account has this address and this password and is active. */
  predicate Predicts(ledger: Ledger, email: string, password: string) {
    exists i | i in ledger :: ledger[i] == Account(Some(Lower(email)), Some(password), true)
  }

  lemma LoginAsPredicted(users: seq<User>, ledger: Ledger, email: string, password: string, at: int)
    requires UsersSound(users) && Faithful(ledger, users)
    ensures Login(users, email, password, at).1.Ok? <==> Predicts(ledger, email, password)
  {
    FoundById(users, email);
    var found := FindByEmail(users, email);
    if Predicts(ledger, email, password) {
      var i :| i in ledger && ledger[i] == Account(Some(Lower(email)), Some(password), true);
      assert users[i] in users;
      assert found.Some? && found.value.id == i;
    }
    if Login(users, email, password, at).1.Ok? {
      assert ledger[found.value.id] == Account(Some(Lower(email)), Some(password), true);
    }
  }

  // ----- the ledger stays faithful -----

  /** Any request, as long as the token of an invitation is new. */
  predicate Observable(db: Db, r: Request) {
    r.Invites? ==> FindByTokenHash(db.invitations, Sha256(r.token)).None?
  }

  lemma ObserveAppend(ledger: Ledger, users: seq<User>, u: User, a: Account)
    requires Faithful(ledger, users) && a == AccountOf(u)
    ensures Faithful(ledger[|users| := a], users + [u])
  {
  }

  lemma ObserveReplace(ledger: Ledger, users: seq<User>, id: nat, u: User, a: Account)
    requires Faithful(ledger, users) && id < |users| && a == AccountOf(u)
    ensures Faithful(ledger[id := a], users[id := u])
  {
  }

  lemma ObserveInvite(db: Db, ledger: Ledger, r: Request)
    requires Sound(db) && Faithful(ledger, db.users) && r.Invites? && Observable(db, r)
    ensures var (db', reply) := Serve(db, r); Faithful(Observe(ledger, r, reply), db'.users)
  {
    var (db', reply) := Serve(db, r);
    if reply.InvitationReply? {
      var id := reply.invitation.userId;
      InviteOutcome(db, r.data, r.invitedBy, r.token, r.at, r.ttlDays);
      var a := Observe(ledger, r, reply)[id];
      if id < |db.users| {
        assert db'.users == db.users[id := db'.users[id]];
        ObserveReplace(ledger, db.users, id, db'.users[id], a);
      } else {
        assert db'.users == db.users + [db'.users[id]];
        ObserveAppend(ledger, db.users, db'.users[id], a);
      }
    } else {
      InviteRefusal(db, r.data, r.invitedBy, r.token, r.at, r.ttlDays);
    }
  }

  lemma ObserveAccept(db: Db, ledger: Ledger, r: Request)
    requires Sound(db) && Faithful(ledger, db.users) && r.Accepts?
    ensures var (db', reply) := Serve(db, r); Faithful(Observe(ledger, r, reply), db'.users)
  {
    var (db', reply) := Serve(db, r);
    FindUsableKeeps(db.invitations, r.token, r.at);
    if reply.UserReply? {
      var inv := FindUsable(db.invitations, r.token, r.at).1.value;
      AcceptOutcome(db, r.token, r.acceptance, r.at, r.usedAt, inv);
      ObserveReplace(ledger, db.users, inv.userId, reply.user, Observe(ledger, r, reply)[inv.userId]);
    }
  }

  lemma ObserveUpdate(db: Db, ledger: Ledger, r: Request)
    requires Sound(db) && Faithful(ledger, db.users) && r.Update?
    ensures var (db', reply) := Serve(db, r); Faithful(Observe(ledger, r, reply), db'.users)
  {
    var (db', reply) := Serve(db, r);
    UpdateSucceedsIff(db.users, r.id, r.asStored, r.patch);
    if reply.UserReply? {
      ObserveReplace(ledger, db.users, r.id, reply.user, Amended(ledger[r.id], r.patch));
    }
  }

  lemma ObserveUserRequest(db: Db, ledger: Ledger, r: Request)
    requires Sound(db) && Faithful(ledger, db.users)
    requires r.Register? || r.Deactivate? || r.LogsIn?
    ensures var (db', reply) := Serve(db, r); Faithful(Observe(ledger, r, reply), db'.users)
  {
    var (db', reply) := Serve(db, r);
    if reply.UserReply? {
      match r
      case Register(dto) => ObserveAppend(ledger, db.users, reply.user, Observe(ledger, r, reply)[|db.users|]);
      case Deactivate(id) => ObserveReplace(ledger, db.users, id, reply.user, ledger[id].(active := false));
      case LogsIn(email, password, at) => FoundById(db.users, email);
    }
  }

  lemma ObserveKeepsFaithful(db: Db, ledger: Ledger, r: Request)
    requires Sound(db) && Faithful(ledger, db.users) && Observable(db, r)
    ensures var (db', reply) := Serve(db, r); Faithful(Observe(ledger, r, reply), db'.users)
  {
    match r
    case Invites(_, _, _, _, _) => ObserveInvite(db, ledger, r);
    case Accepts(_, _, _, _) => ObserveAccept(db, ledger, r);
    case Update(_, _, _) => ObserveUpdate(db, ledger, r);
    case Validate(_, _) =>
    case _ => ObserveUserRequest(db, ledger, r);
  }

  // ----- over whole runs -----

  /** The store and the observer side by side. */
  datatype Watched = Watched(db: Db, ledger: Ledger)

  function Watch(w: Watched, r: Request): Watched {
    var (db', reply) := Serve(w.db, r);
    Watched(db', Observe(w.ledger, r, reply))
  }

  ghost predicate InStep(w: Watched) {
    Sound(w.db) && Faithful(w.ledger, w.db.users)
  }

  lemma WatchKeepsInStep(w: Watched, r: Request)
    requires InStep(w) && Observable(w.db, r)
    ensures InStep(Watch(w, r))
  {
    ServeKeeps(w.db, r);
    ObserveKeepsFaithful(w.db, w.ledger, r);
  }

  lemma LoginInStep(w: Watched, email: string, password: string, at: int)
    requires InStep(w)
    ensures Serve(w.db, LogsIn(email, password, at)).1.UserReply? <==> Predicts(w.ledger, email, password)
  {
    LoginAsPredicted(w.db.users, w.ledger, email, password, at);
  }

  predicate ObservableIn(w: Watched, r: Request) {
    Observable(w.db, r)
  }

  /**
    Over every serial run of any requests from an empty store, in which tokens are never drawn twice, a
    login succeeds exactly when the history of requests and replies predicts it.
   */
  lemma LoginMatchesHistory(requests: seq<Request>, i: nat, email: string, password: string, at: int)
    requires i <= |requests| && Allowed(Watch, ObservableIn, Watched(EMPTY, map[]), requests)
    ensures var w := After(Watch, Watched(EMPTY, map[]), requests, i);
      Serve(w.db, LogsIn(email, password, at)).1.UserReply? <==> Predicts(w.ledger, email, password)
  {
    var start := Watched(EMPTY, map[]);
    EmptyIsSound();
    forall w: Watched, r: Request | InStep(w) && ObservableIn(w, r) ensures InStep(Watch(w, r)) {
      WatchKeepsInStep(w, r);
    }
    Always(Watch, InStep, ObservableIn, start, requests, i);
    LoginInStep(After(Watch, start, requests, i), email, password, at);
  }
}
