/**
  What requests that open the same token can do to each other (src/invitations/invitations.service.ts:131-215):
  when an invitation becomes used, when it is accepted twice, and when a late EXPIRED undoes ACCEPTED.
 */
module AcceptRaces {
  import opened AcceptInterleaving
  import opened AccountRuns
  import opened Accounts
  import opened Common
  import opened Runs
  import opened Text

  // ----- when an invitation becomes used -----

  predicate Used(db: Db, id: nat) {
    id < |db.invitations| && db.invitations[id].usedAt.Some?
  }

  /** A successful acceptance of the invitation's token. */
  predicate AcceptsWhole(db: Db, r: Request, id: nat) {
    r.Accepts? && Serve(db, r).1.UserReply? && IsOfToken(db, id, r.token)
  }

  /** The move accepts the invitation: a task marks it, or a whole acceptance of its token succeeds. */
  predicate Accepting(s: System, m: Move, id: nat) {
    match m
    case Mark(t) => Enabled(s, m) && s.tasks[t].stage.id == id
    case Other(r) => AcceptsWhole(s.db, r, id)
    case _ => false
  }

  /** A refused acceptance at most marks its invitation as lapsed. */
  lemma RefusedAcceptLapses(db: Db, r: Request)
    requires Sound(db) && r.Accepts? && Serve(db, r).1.Refused?
    ensures OnlyLapse(db.invitations, Serve(db, r).0.invitations)
  {
    FindUsableKeeps(db.invitations, r.token, r.at);
    assert OnlyLapse(db.invitations, db.invitations);
  }

  lemma WholeAcceptIff(db: Db, r: Request, id: nat)
    requires Sound(db) && id < |db.invitations| && r.Accepts?
    ensures Used(Serve(db, r).0, id) <==> Used(db, id) || AcceptsWhole(db, r, id)
  {
    if Serve(db, r).1.UserReply? {
      var inv := FindUsable(db.invitations, r.token, r.at).1.value;
      AcceptOutcome(db, r.token, r.acceptance, r.at, r.usedAt, inv);
      StoredIsFound(db.invitations, id);
      OpenedIsFound(db.invitations, inv, r.token, r.at);
    } else {
      RefusedAcceptLapses(db, r);
    }
  }

  lemma ServeUsesIff(db: Db, r: Request, id: nat)
    requires Sound(db) && id < |db.invitations|
    ensures Used(Serve(db, r).0, id) <==> Used(db, id) || AcceptsWhole(db, r, id)
  {
    match r
    case Accepts(_, _, _, _) => WholeAcceptIff(db, r, id);
    case Validate(token, at) => FindUsableKeeps(db.invitations, token, at);
    case _ =>
  }

  lemma NextUsesIff(s: System, m: Move, id: nat)
    requires SystemSound(s) && id < |s.db.invitations|
    ensures Used(Next(s, m).db, id) <==> Used(s.db, id) || Accepting(s, m, id)
  {
    if m.Other? { ServeUsesIff(s.db, m.request, id); }
  }

  function AcceptingOf(id: nat): (System, Move) -> bool {
    (s: System, m: Move) => Accepting(s, m, id)
  }

  /** The invitation is accepted by some move from i on and before j. */
  ghost predicate AcceptedBetween(s: System, moves: seq<Move>, i: nat, j: nat, id: nat) {
    Occurs(Next, AcceptingOf(id), s, moves, i, j)
  }

  /**
    In every interleaving, an invitation has a time of use at a later state if and only if it had one
    before, or some move in between marked it for a task or was a successful acceptance of its token.
   */
  lemma UsedIffAccepting(s: System, moves: seq<Move>, i: nat, j: nat, id: nat)
    requires SystemSound(s) && i <= j <= |moves| && id < |After(Next, s, moves, i).db.invitations|
    ensures Used(After(Next, s, moves, j).db, id)
      <==> Used(After(Next, s, moves, i).db, id) || AcceptedBetween(s, moves, i, j, id)
  {
    var inv := (t: System) => SystemSound(t) && id < |t.db.invitations|;
    var prop := (t: System) => Used(t.db, id);
    InterleavingsAreSound(s, moves, i, i);
    forall t: System, m: Move | inv(t)
      ensures inv(Next(t, m)) && (prop(Next(t, m)) <==> prop(t) || AcceptingOf(id)(t, m))
    {
      NextKeeps(t, m);
      NextUsesIff(t, m, id);
    }
    BecomesIff(Next, inv, prop, AcceptingOf(id), s, moves, i, j);
  }

  // ----- accepting twice -----

  /** A task that has read an invitation stays with it, and gets past its check only if it read PENDING. */
  predicate StaysWith(stage: Stage, inv: Invitation) {
    || stage == Fetched(Some(inv)) || stage == Lapsing(inv.id) || stage.Finished? || stage.Rejected?
    || (inv.status.PENDING? && (stage == Looked(inv) || stage == Active(inv.id)))
  }

  lemma NextStaysWith(s: System, m: Move, t: nat, inv: Invitation)
    requires !inv.status.REVOKED? && t < |s.tasks| && StaysWith(s.tasks[t].stage, inv)
    ensures t < |Next(s, m).tasks| && StaysWith(Next(s, m).tasks[t].stage, inv)
  {
  }

  lemma {:induction false} TaskStaysWith(s: System, moves: seq<Move>, i: nat, j: nat, t: nat, inv: Invitation)
    requires !inv.status.REVOKED? && i <= j <= |moves| && t < |After(Next, s, moves, i).tasks|
    requires StaysWith(After(Next, s, moves, i).tasks[t].stage, inv)
    ensures t < |After(Next, s, moves, j).tasks| && StaysWith(After(Next, s, moves, j).tasks[t].stage, inv)
    decreases j
  {
    if i < j {
      TaskStaysWith(s, moves, i, j - 1, t, inv);
      NextStaysWith(After(Next, s, moves, j - 1), moves[j - 1], t, inv);
    }
  }

  /** The task reads this invitation. */
  predicate Reads(s: System, m: Move, t: nat, inv: Invitation) {
    m == Fetch(t) && Enabled(s, m) && Next(s, m).tasks[t].stage == Fetched(Some(inv))
  }

  predicate Marks(s: System, m: Move, t: nat) {
    m == Mark(t) && Enabled(s, m)
  }

  /** At l the task reads the invitation, and at m it marks it. */
  predicate Accepts(s: System, moves: seq<Move>, t: nat, l: nat, m: nat, inv: Invitation) {
    l < m < |moves| && Reads(After(Next, s, moves, l), moves[l], t, inv) && Marks(After(Next, s, moves, m), moves[m], t)
  }

  lemma ReadIsStored(s: System, m: Move, t: nat, inv: Invitation)
    requires SystemSound(s) && Reads(s, m, t, inv)
    ensures Next(s, m).db == s.db && !inv.status.REVOKED?
    ensures inv.id < |s.db.invitations| && s.db.invitations[inv.id] == inv && InvitationSound(inv, inv.id)
    ensures t < |Next(s, m).tasks| && StaysWith(Next(s, m).tasks[t].stage, inv)
  {
    FoundInvitation(s.db.invitations, Sha256(s.tasks[t].token));
  }

  lemma AfterReading(s: System, moves: seq<Move>, l: nat, t: nat, inv: Invitation)
    requires SystemSound(s) && l < |moves| && Reads(After(Next, s, moves, l), moves[l], t, inv)
    ensures !inv.status.REVOKED?
    ensures var read := After(Next, s, moves, l + 1);
      && inv.id < |read.db.invitations| && (inv.status.PENDING? ==> !Used(read.db, inv.id))
      && t < |read.tasks| && StaysWith(read.tasks[t].stage, inv)
  {
    InterleavingsAreSound(s, moves, l, l);
    ReadIsStored(After(Next, s, moves, l), moves[l], t, inv);
  }

  lemma MarksWhatItRead(s: System, m: Move, t: nat, inv: Invitation)
    requires Marks(s, m, t) && t < |s.tasks| && StaysWith(s.tasks[t].stage, inv)
    ensures Accepting(s, m, inv.id) && inv.status.PENDING?
  {
  }

  lemma MarksInvitationRead(s: System, moves: seq<Move>, t: nat, l: nat, m: nat, inv: Invitation)
    requires SystemSound(s) && Accepts(s, moves, t, l, m, inv)
    ensures Accepting(After(Next, s, moves, m), moves[m], inv.id) && inv.status.PENDING?
  {
    AfterReading(s, moves, l, t, inv);
    TaskStaysWith(s, moves, l + 1, m, t, inv);
    MarksWhatItRead(After(Next, s, moves, m), moves[m], t, inv);
  }

  /**
    A task that accepts writes over an acceptance that has already been made, if and only if another
    one falls between its read and its mark.
   */
  lemma OverwritesIffOverlapped(s: System, moves: seq<Move>, t: nat, l: nat, m: nat, inv: Invitation)
    requires SystemSound(s) && Accepts(s, moves, t, l, m, inv)
    ensures Accepting(After(Next, s, moves, m), moves[m], inv.id)
    ensures Used(After(Next, s, moves, m).db, inv.id) <==> AcceptedBetween(s, moves, l + 1, m, inv.id)
  {
    MarksInvitationRead(s, moves, t, l, m, inv);
    AfterReading(s, moves, l, t, inv);
    UsedIffAccepting(s, moves, l + 1, m, inv.id);
  }

  predicate Underway(stage: Stage) {
    (stage.Fetched? && stage.found.Some?) || stage.Looked? || stage.Active?
  }

  lemma EntersUnderway(s: System, m: Move, t: nat)
    requires t < |Next(s, m).tasks| && Underway(Next(s, m).tasks[t].stage)
    ensures t < |s.tasks|
    ensures !Underway(s.tasks[t].stage) ==>
      Next(s, m).tasks[t].stage.Fetched? && Reads(s, m, t, Next(s, m).tasks[t].stage.found.value)
  {
  }

  predicate AllArrived(s: System) {
    forall t | 0 <= t < |s.tasks| :: s.tasks[t].stage.Arrived?
  }

  /** Every task underway once read, in this interleaving, the invitation it is with. */
  lemma {:induction false} ReadBefore(s: System, moves: seq<Move>, k: nat, t: nat) returns (l: nat, inv: Invitation)
    requires k <= |moves| && AllArrived(s)
    requires t < |After(Next, s, moves, k).tasks| && Underway(After(Next, s, moves, k).tasks[t].stage)
    ensures l < k && Reads(After(Next, s, moves, l), moves[l], t, inv)
    decreases k
  {
    assert k > 0;
    EntersUnderway(After(Next, s, moves, k - 1), moves[k - 1], t);
    if Underway(After(Next, s, moves, k - 1).tasks[t].stage) {
      l, inv := ReadBefore(s, moves, k - 1, t);
    } else {
      l, inv := k - 1, After(Next, s, moves, k).tasks[t].stage.found.value;
    }
  }

  /** Two different moves accept the invitation. */
  ghost predicate AcceptedTwice(s: System, moves: seq<Move>, id: nat) {
    exists j: nat, k: nat :: j < k < |moves|
      && Accepting(After(Next, s, moves, j), moves[j], id) && Accepting(After(Next, s, moves, k), moves[k], id)
  }

  /** Some acceptance of the invitation falls between the read and the mark of a task that accepts it too. */
  ghost predicate Overlapped(s: System, moves: seq<Move>, id: nat) {
    exists t: nat, l: nat, m: nat, inv ::
      Accepts(s, moves, t, l, m, inv) && inv.id == id && AcceptedBetween(s, moves, l + 1, m, id)
  }

  lemma AcceptingStored(s: System, m: Move, id: nat)
    requires SystemSound(s) && Accepting(s, m, id)
    ensures id < |s.db.invitations|
  {
    if m.Mark? { assert TaskSound(s.db, s.tasks[m.t]); }
  }

  /** A whole acceptance never succeeds on an invitation that has been used. */
  lemma WholeAcceptIsFirst(s: System, r: Request, id: nat)
    requires SystemSound(s) && Used(s.db, id)
    ensures !Accepting(s, Other(r), id)
  {
    if Accepting(s, Other(r), id) {
      StoredIsFound(s.db.invitations, id);
      assert Spent(s.db, r.token);
      ServedSpentIsRefused(s.db, r);
    }
  }

  lemma SecondIsMark(s: System, moves: seq<Move>, j: nat, k: nat, id: nat)
    requires SystemSound(s) && j < k < |moves|
    requires Accepting(After(Next, s, moves, j), moves[j], id) && Accepting(After(Next, s, moves, k), moves[k], id)
    ensures Used(After(Next, s, moves, k).db, id) && moves[k].Mark?
  {
    InterleavingsAreSound(s, moves, j, k);
    AcceptingStored(After(Next, s, moves, j), moves[j], id);
    assert AcceptingOf(id)(After(Next, s, moves, j), moves[j]);
    UsedIffAccepting(s, moves, j, k, id);
    if moves[k].Other? { WholeAcceptIsFirst(After(Next, s, moves, k), moves[k].request, id); }
  }

  lemma SecondOverlaps(s: System, moves: seq<Move>, j: nat, k: nat, id: nat)
    requires SystemSound(s) && AllArrived(s) && j < k < |moves|
    requires Accepting(After(Next, s, moves, j), moves[j], id) && Accepting(After(Next, s, moves, k), moves[k], id)
    ensures Overlapped(s, moves, id)
  {
    SecondIsMark(s, moves, j, k, id);
    var t := moves[k].t;
    var l, inv := ReadBefore(s, moves, k, t);
    assert Accepts(s, moves, t, l, k, inv);
    OverwritesIffOverlapped(s, moves, t, l, k, inv);
    assert inv.id == id;
  }

  /**
    In an interleaving of fresh tasks and any requests, an invitation is accepted twice if and only
    if some acceptance of it, by a task or a whole request, falls between the read and the mark of
    another. Serial runs have no such moment.
   */
  lemma AcceptedTwiceIff(s: System, moves: seq<Move>, id: nat)
    requires SystemSound(s) && AllArrived(s)
    ensures AcceptedTwice(s, moves, id) <==> Overlapped(s, moves, id)
  {
    if AcceptedTwice(s, moves, id) {
      var j: nat, k: nat :| j < k < |moves| && Accepting(After(Next, s, moves, j), moves[j], id)
        && Accepting(After(Next, s, moves, k), moves[k], id);
      SecondOverlaps(s, moves, j, k, id);
    }
    if Overlapped(s, moves, id) {
      var t: nat, l: nat, m: nat, inv :| Accepts(s, moves, t, l, m, inv) && inv.id == id
        && AcceptedBetween(s, moves, l + 1, m, id);
      OverwritesIffOverlapped(s, moves, t, l, m, inv);
      var j: nat :| l + 1 <= j < m <= |moves| && AcceptingOf(id)(After(Next, s, moves, j), moves[j]);
    }
  }

  lemma ReadAtUsedIsUnusable(s: System, t: nat, id: nat)
    requires SystemSound(s) && Enabled(s, Fetch(t)) && Used(s.db, id) && IsOfToken(s.db, id, s.tasks[t].token)
    ensures var stage := Next(s, Fetch(t)).tasks[t].stage;
      stage.Rejected? || (stage.Fetched? && forall at :: Judged(stage.found, at).Unusable?)
  {
    StoredIsFound(s.db.invitations, id);
    assert InvitationSound(s.db.invitations[id], id);
  }

  /** A task that reads after an acceptance of the same invitation, by a task or a whole request, will be rejected. */
  lemma ReadAfterAcceptIsUnusable(s: System, moves: seq<Move>, i: nat, j: nat, id: nat, t: nat)
    requires SystemSound(s) && i < j < |moves| && Accepting(After(Next, s, moves, i), moves[i], id)
    requires moves[j] == Fetch(t) && Enabled(After(Next, s, moves, j), moves[j])
    requires IsOfToken(After(Next, s, moves, j).db, id, After(Next, s, moves, j).tasks[t].token)
    ensures var stage := After(Next, s, moves, j + 1).tasks[t].stage;
      stage.Rejected? || (stage.Fetched? && forall at :: Judged(stage.found, at).Unusable?)
  {
    InterleavingsAreSound(s, moves, i, j);
    AcceptingStored(After(Next, s, moves, i), moves[i], id);
    assert AcceptingOf(id)(After(Next, s, moves, i), moves[i]);
    UsedIffAccepting(s, moves, i, j, id);
    ReadAtUsedIsUnusable(After(Next, s, moves, j), t, id);
  }

  // ----- one acceptance of a token at a time -----

  /** The task may still accept: it has read a PENDING invitation and is not done with it. */
  predicate Hopeful(task: Task) {
    task.purpose.ToAccept? && match task.stage
      case Fetched(found) => found.Some? && found.value.status.PENDING?
      case Looked(_) => true
      case Active(_) => true
      case _ => false
  }

  predicate InFlight(s: System, token: string) {
    exists t | 0 <= t < |s.tasks| :: s.tasks[t].token == token && Hopeful(s.tasks[t])
  }

  /** No acceptance of a token begins while a task with that token is in flight. */
  predicate Orderly(s: System, m: Move) {
    match m
    case Fetch(t) => Enabled(s, m) && s.tasks[t].purpose.ToAccept? ==> !InFlight(s, s.tasks[t].token)
    case Other(r) => r.Accepts? ==> !InFlight(s, r.token)
    case _ => true
  }

  /** Tasks in flight have different tokens, none of which has been used. */
  ghost predicate Solo(s: System) {
    && SystemSound(s)
    && (forall t, k | 0 <= t < k < |s.tasks| && Hopeful(s.tasks[t]) && Hopeful(s.tasks[k]) ::
          s.tasks[t].token != s.tasks[k].token)
    && (forall t | 0 <= t < |s.tasks| && Hopeful(s.tasks[t]) :: !Spent(s.db, s.tasks[t].token))
  }

  /** A move makes a token spent only if it accepts an invitation of it. */
  lemma SpentOnlyByAccepting(s: System, m: Move, token: string) returns (id: nat)
    requires SystemSound(s) && !Spent(s.db, token) && Spent(Next(s, m).db, token)
    ensures IsOfToken(s.db, id, token) && Accepting(s, m, id)
  {
    NextKeeps(s, m);
    var db' := Next(s, m).db;
    id :| 0 <= id < |db'.invitations| && db'.invitations[id].tokenHash == Sha256(token)
      && db'.invitations[id].usedAt.Some?;
    if id < |s.db.invitations| {
      NextUsesIff(s, m, id);
      assert Persists(s.db.invitations[id], db'.invitations[id]);
    } else {
      InvitesAddPending(s.db, m.request);
    }
  }

  lemma PendingIsUnspent(db: Db, inv: Invitation, token: string)
    requires Sound(db) && inv.id < |db.invitations| && db.invitations[inv.id] == inv && inv.status.PENDING?
    requires inv.tokenHash == Sha256(token)
    ensures !Spent(db, token)
  {
    assert InvitationSound(inv, inv.id);
  }

  /** The only way into flight is to read a PENDING invitation. */
  lemma HopefulStep(s: System, m: Move, t: nat)
    requires SystemSound(s) && t < |s.tasks| && Hopeful(Next(s, m).tasks[t])
    ensures Next(s, m).tasks[t].token == s.tasks[t].token && Next(s, m).tasks[t].purpose == s.tasks[t].purpose
    ensures Hopeful(s.tasks[t]) || (m == Fetch(t) && Enabled(s, m) && !Spent(s.db, s.tasks[t].token))
  {
    if m == Fetch(t) && Enabled(s, m) {
      var stage := Next(s, m).tasks[t].stage;
      FoundInvitation(s.db.invitations, Sha256(s.tasks[t].token));
      PendingIsUnspent(s.db, stage.found.value, s.tasks[t].token);
    }
  }

  lemma OrderlyKeepsUnspent(s: System, m: Move, t: nat)
    requires Solo(s) && Orderly(s, m) && t < |s.tasks| && Hopeful(Next(s, m).tasks[t])
    ensures !Spent(Next(s, m).db, s.tasks[t].token)
  {
    var token := s.tasks[t].token;
    HopefulStep(s, m, t);
    assert Hopeful(s.tasks[t]) ==> InFlight(s, token);
    if Spent(Next(s, m).db, token) && !Spent(s.db, token) {
      MarkIsOfItsToken(s, m);
      var _ := SpentOnlyByAccepting(s, m, token);
    }
  }

  lemma MarkIsOfItsToken(s: System, m: Move)
    requires SystemSound(s)
    ensures m.Mark? && Enabled(s, m) ==>
      Hopeful(s.tasks[m.t]) && IsOfToken(s.db, s.tasks[m.t].stage.id, s.tasks[m.t].token)
  {
    if m.Mark? && Enabled(s, m) { assert TaskSound(s.db, s.tasks[m.t]); }
  }

  lemma OrderlyKeepsSolo(s: System, m: Move)
    requires Solo(s) && Orderly(s, m)
    ensures Solo(Next(s, m))
  {
    NextKeeps(s, m);
    var s' := Next(s, m);
    forall t | 0 <= t < |s'.tasks| && Hopeful(s'.tasks[t]) ensures !Spent(s'.db, s'.tasks[t].token) {
      HopefulStep(s, m, t);
      OrderlyKeepsUnspent(s, m, t);
    }
    forall t, k | 0 <= t < k < |s'.tasks| && Hopeful(s'.tasks[t]) && Hopeful(s'.tasks[k])
      ensures s'.tasks[t].token != s'.tasks[k].token
    {
      HopefulStep(s, m, t);
      HopefulStep(s, m, k);
      assert Hopeful(s.tasks[t]) ==> InFlight(s, s.tasks[t].token);
      assert Hopeful(s.tasks[k]) ==> InFlight(s, s.tasks[k].token);
    }
  }

  lemma UsedIsOver(s: System, m: Move, id: nat)
    requires Solo(s) && Used(s.db, id)
    ensures !Accepting(s, m, id)
  {
    if Accepting(s, m, id) {
      if m.Other? {
        WholeAcceptIsFirst(s, m.request, id);
      } else {
        MarkIsOfItsToken(s, m);
        assert Spent(s.db, s.tasks[m.t].token);
      }
    }
  }

  /** If no acceptance of a token begins while another is in flight, each invitation is accepted at most once. */
  lemma OrderlyAcceptsOnce(s: System, moves: seq<Move>, id: nat)
    requires Solo(s) && Allowed(Next, Orderly, s, moves)
    ensures !AcceptedTwice(s, moves, id)
  {
    if AcceptedTwice(s, moves, id) {
      var j: nat, k: nat :| j < k < |moves| && Accepting(After(Next, s, moves, j), moves[j], id)
        && Accepting(After(Next, s, moves, k), moves[k], id);
      forall t: System, m: Move | Solo(t) && Orderly(t, m) ensures Solo(Next(t, m)) { OrderlyKeepsSolo(t, m); }
      Always(Next, Solo, Orderly, s, moves, k);
      SecondIsMark(s, moves, j, k, id);
      UsedIsOver(After(Next, s, moves, k), moves[k], id);
    }
  }
}
