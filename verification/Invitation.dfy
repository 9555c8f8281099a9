/**
 * Invitations as a protocol: accept, decline, revoke, resend and registration
 * interleave, and every call holds what it read until it writes.
 */
module Invitation {
  import opened Prelude

  type InviteId = nat
  type UserId = nat
  type WorkspaceId = nat
  type Email = string
  type Hash = nat
  type Time = int
  type CallId = nat

  datatype Row = Row(workspaceId: WorkspaceId, email: Email, tokenHash: Hash, expiresAt: Time,
                     acceptedAt: Option<Time>, acceptedBy: Option<UserId>,
                     declinedAt: Option<Time>, revokedAt: Option<Time>)

  datatype Status = REVOKED | DECLINED | ACCEPTED | EXPIRED | PENDING

  /** The first match wins. */
  function StatusOf(row: Row, now: Time): Status {
    if row.revokedAt.Some? then REVOKED
    else if row.declinedAt.Some? then DECLINED
    else if row.acceptedAt.Some? then ACCEPTED
    else if row.expiresAt <= now then EXPIRED
    else PENDING
  }

  // ---- What the status means, in terms of the timestamps ----

  ghost predicate Unstamped(row: Row) {
    row.revokedAt.None? && row.declinedAt.None? && row.acceptedAt.None?
  }

  /** The invitation may still be answered. */
  ghost predicate Open(row: Row, now: Time) {
    Unstamped(row) && now < row.expiresAt
  }

  /** Nobody answered it in time. */
  ghost predicate Lapsed(row: Row, now: Time) {
    Unstamped(row) && row.expiresAt <= now
  }

  /** A revoked row counts as revoked whatever else is stamped, then a declined one, then an accepted one. */
  lemma StatusByStamps(row: Row, now: Time)
    ensures StatusOf(row, now) == PENDING <==> Open(row, now)
    ensures StatusOf(row, now) == EXPIRED <==> Lapsed(row, now)
    ensures StatusOf(row, now) == REVOKED <==> row.revokedAt.Some?
    ensures StatusOf(row, now) == DECLINED <==> row.revokedAt.None? && row.declinedAt.Some?
    ensures StatusOf(row, now) == ACCEPTED <==> row.revokedAt.None? && row.declinedAt.None? && row.acceptedAt.Some?
  {
  }

  datatype Member = Member(userId: UserId, workspaceId: WorkspaceId)

  datatype Db = Db(rows: map<InviteId, Row>, members: set<Member>)

  datatype Answer =
    | Joined(member: Member)
    | AlreadyMember(member: Member)
    | Done
    | NotFound
    | Gone
    | EmailMismatch
    | Failed

  /** `acceptInvitation`'s transaction, under the row lock. The unique key on memberships may abort it. */
  function AcceptTx(db: Db, id: InviteId, userId: UserId, now: Time): (Db, Answer)
    requires id in db.rows
  {
    var locked := db.rows[id];
    var member := Member(userId, locked.workspaceId);
    var status := StatusOf(locked, now);
    if status == EXPIRED then (db, Gone)
    else if status != PENDING then (db, if member in db.members then AlreadyMember(member) else NotFound)
    else if member in db.members then (db, Failed)
    else (Granted(db, id, userId, now), Joined(member))
  }

  function Granted(db: Db, id: InviteId, userId: UserId, now: Time): Db
    requires id in db.rows
  {
    var row := db.rows[id];
    Db(db.rows[id := row.(acceptedAt := Some(now), acceptedBy := Some(userId))],
       db.members + {Member(userId, row.workspaceId)})
  }

  /** `applyInviteTokenOnRegister`, inside the registration's transaction. */
  function RegisterTx(db: Db, found: Option<InviteId>, userId: UserId, email: Email, now: Time): (Db, bool)
    requires found.Some? ==> found.value in db.rows
  {
    if found.None? then (db, false)
    else
      var row := db.rows[found.value];
      if StatusOf(row, now) != PENDING || row.email != email || Member(userId, row.workspaceId) in db.members
      then (db, false)
      else (Granted(db, found.value, userId, now), true)
  }

  /** The three calls that read, check what they read, and write without a lock. */
  datatype Change = Revoke | Decline | Resend(tokenHash: Hash, expiresAt: Time)

  function Changed(row: Row, change: Change, now: Time): Row {
    match change
    case Revoke => row.(revokedAt := Some(now))
    case Decline => row.(declinedAt := Some(now))
    case Resend(tokenHash, expiresAt) => row.(tokenHash := tokenHash, expiresAt := expiresAt)
  }

  // ---- Calls in flight ----

  datatype Request =
    | Accept(tokenHash: Hash, userId: UserId)
    | ByRecipient(tokenHash: Hash, userId: UserId)
    | ByAdmin(workspaceId: WorkspaceId, id: InviteId, change: Change)

  datatype Call =
    | Asked(request: Request)
    | Bound(id: InviteId, userId: UserId)
    | Ready(id: InviteId, userId: UserId)
    | Found(change: Change, id: InviteId, read: Row)
    | Cleared(change: Change, id: InviteId)
    | Answered(answer: Answer)

  /** A membership created from an invitation. */
  datatype Grant = Grant(id: InviteId, userId: UserId)

  datatype State = State(db: Db, users: map<UserId, Email>, now: Time, calls: map<CallId, Call>, grants: seq<Grant>)

  datatype Event =
    | Tick(ms: nat)
    | Invite(id: InviteId, workspaceId: WorkspaceId, email: Email, tokenHash: Hash, expiresAt: Time)
    | Begin(call: CallId, request: Request)
    | Advance(call: CallId, found: Option<InviteId>)
    | Register(userId: UserId, email: Email, tokenHash: Hash, found: Option<InviteId>)

  /** What `findByTokenHash` may answer. */
  ghost predicate Finds(rows: map<InviteId, Row>, tokenHash: Hash, found: Option<InviteId>) {
    match found
    case Some(id) => id in rows && rows[id].tokenHash == tokenHash
    case None => forall id: InviteId :: id in rows ==> rows[id].tokenHash != tokenHash
  }

  ghost predicate Enabled(s: State, e: Event) {
    match e
    case Tick(_) => true
    case Invite(id, _, _, _, _) => id !in s.db.rows
    case Begin(call, request) => call !in s.calls && (request.ByAdmin? ==> !request.change.Decline?)
    case Advance(call, found) =>
      && call in s.calls && !s.calls[call].Answered?
      && (s.calls[call].Asked? && !s.calls[call].request.ByAdmin? ==>
            Finds(s.db.rows, s.calls[call].request.tokenHash, found))
    case Register(userId, _, tokenHash, found) => userId !in s.users && Finds(s.db.rows, tokenHash, found)
  }

  /** The addressee's calls: the row by token, the user by id, and the email binding between them. */
  function Bind(s: State, tokenHash: Hash, userId: UserId, found: Option<InviteId>): Option<Answer> {
    if found.None? || found.value !in s.db.rows || userId !in s.users then Some(NotFound)
    else if s.db.rows[found.value].email != s.users[userId] then Some(EmailMismatch)
    else None
  }

  function AnswerWith(s: State, call: CallId, answer: Answer): State {
    s.(calls := s.calls[call := Answered(answer)])
  }

  function Move(s: State, call: CallId, next: Call): State {
    s.(calls := s.calls[call := next])
  }

  function AdvanceAsked(s: State, call: CallId, request: Request, found: Option<InviteId>): State {
    match request
    case Accept(tokenHash, userId) =>
      var refusal := Bind(s, tokenHash, userId, found);
      if refusal.Some? then AnswerWith(s, call, refusal.value)
      else if found.None? then s
      else Move(s, call, Bound(found.value, userId))
    case ByRecipient(tokenHash, userId) =>
      var refusal := Bind(s, tokenHash, userId, found);
      if refusal.Some? then AnswerWith(s, call, refusal.value)
      else if found.None? || found.value !in s.db.rows then s
      else Move(s, call, Found(Decline, found.value, s.db.rows[found.value]))
    case ByAdmin(workspaceId, id, change) =>
      if id !in s.db.rows || s.db.rows[id].workspaceId != workspaceId then AnswerWith(s, call, NotFound)
      else Move(s, call, Found(change, id, s.db.rows[id]))
  }

  function AdvanceCall(s: State, call: CallId, found: Option<InviteId>): State
    requires call in s.calls
  {
    match s.calls[call]
    case Asked(request) => AdvanceAsked(s, call, request, found)
    case Bound(id, userId) =>
      if id !in s.db.rows then s
      else
        var member := Member(userId, s.db.rows[id].workspaceId);
        if member in s.db.members then AnswerWith(s, call, AlreadyMember(member)) else Move(s, call, Ready(id, userId))
    case Ready(id, userId) =>
      if id !in s.db.rows then s
      else
        var (db, answer) := AcceptTx(s.db, id, userId, s.now);
        AnswerWith(s, call, answer).(db := db, grants := if answer.Joined? then s.grants + [Grant(id, userId)] else s.grants)
    case Found(change, id, read) =>
      if StatusOf(read, s.now) == PENDING then Move(s, call, Cleared(change, id)) else AnswerWith(s, call, NotFound)
    case Cleared(change, id) =>
      if id !in s.db.rows then s
      else AnswerWith(s, call, Done).(db := s.db.(rows := s.db.rows[id := Changed(s.db.rows[id], change, s.now)]))
    case Answered(_) => s
  }

  function Next(s: State, e: Event): State {
    match e
    case Tick(ms) => s.(now := s.now + ms)
    case Invite(id, workspaceId, email, tokenHash, expiresAt) =>
      s.(db := s.db.(rows := s.db.rows[id := Row(workspaceId, email, tokenHash, expiresAt, None, None, None, None)]))
    case Begin(call, request) => s.(calls := s.calls[call := Asked(request)])
    case Advance(call, found) => if call in s.calls then AdvanceCall(s, call, found) else s
    case Register(userId, email, _, found) =>
      var users := s.users[userId := email];
      if found.Some? && found.value !in s.db.rows then s
      else
        var (db, applied) := RegisterTx(s.db, found, userId, email, s.now);
        s.(db := db, users := users,
           grants := if applied && found.Some? then s.grants + [Grant(found.value, userId)] else s.grants)
  }

  ghost predicate IsRun(s: State, events: seq<Event>)
    decreases |events|
  {
    events == [] || (Enabled(s, events[0]) && IsRun(Next(s, events[0]), events[1..]))
  }

  function After(s: State, events: seq<Event>): State
    decreases |events|
  {
    if events == [] then s else After(Next(s, events[0]), events[1..])
  }

  ghost predicate Initial(s: State) {
    s.db == Db(map[], {}) && s.calls == map[] && s.grants == []
  }

  // ---- What every step keeps ----

  /** The email binding: the invitation is to this user's address. */
  ghost predicate Addressed(s: State, id: InviteId, userId: UserId) {
    id in s.db.rows && userId in s.users && s.db.rows[id].email == s.users[userId]
  }

  ghost predicate CallOk(s: State, call: Call) {
    match call
    case Bound(id, userId) => Addressed(s, id, userId)
    case Ready(id, userId) => Addressed(s, id, userId)
    case Found(_, id, _) => id in s.db.rows
    case Cleared(_, id) => id in s.db.rows
    case _ => true
  }

  /** Stamps lie in the past, and a refusal stamped beside an acceptance came after it. */
  ghost predicate StampsOk(row: Row, now: Time) {
    && (row.acceptedAt.Some? ==> row.acceptedAt.value <= now)
    && (row.revokedAt.Some? ==> row.revokedAt.value <= now)
    && (row.declinedAt.Some? ==> row.declinedAt.value <= now)
    && (row.acceptedAt.Some? && row.revokedAt.Some? ==> row.acceptedAt.value <= row.revokedAt.value)
    && (row.acceptedAt.Some? && row.declinedAt.Some? ==> row.acceptedAt.value <= row.declinedAt.value)
  }

  ghost predicate HasGrant(grants: seq<Grant>, id: InviteId) {
    exists g :: g in grants && g.id == id
  }

  /** At most one membership an invitation, and one exactly if the row is stamped accepted. */
  ghost predicate GrantsOk(rows: map<InviteId, Row>, members: set<Member>, grants: seq<Grant>) {
    && (forall i, j :: 0 <= i < j < |grants| ==> grants[i].id != grants[j].id)
    && (forall g :: g in grants ==>
          && g.id in rows && rows[g.id].acceptedAt.Some? && rows[g.id].acceptedBy == Some(g.userId)
          && Member(g.userId, rows[g.id].workspaceId) in members)
    && (forall id: InviteId :: id in rows && rows[id].acceptedAt.Some? ==> HasGrant(grants, id))
  }

  ghost predicate Inv(s: State) {
    && (forall call: CallId :: call in s.calls ==> CallOk(s, s.calls[call]))
    && (forall id: InviteId :: id in s.db.rows ==> StampsOk(s.db.rows[id], s.now))
    && GrantsOk(s.db.rows, s.db.members, s.grants)
    && (forall g :: g in s.grants ==> Addressed(s, g.id, g.userId))
  }

  /** A step's effect on one stored row. */
  ghost predicate RowStep(before: Row, after: Row, now: Time) {
    || after == before
    || (Open(before, now) && exists u :: after == before.(acceptedAt := Some(now), acceptedBy := Some(u)))
    || after == before.(revokedAt := Some(now))
    || after == before.(declinedAt := Some(now))
    || exists h, x :: after == before.(tokenHash := h, expiresAt := x)
  }

  lemma GrantKeepsGrants(db: Db, grants: seq<Grant>, id: InviteId, userId: UserId, now: Time)
    requires GrantsOk(db.rows, db.members, grants) && id in db.rows && StatusOf(db.rows[id], now) == PENDING
    ensures
      var db' := Granted(db, id, userId, now);
      GrantsOk(db'.rows, db'.members, grants + [Grant(id, userId)])
  {
    var db', grants' := Granted(db, id, userId, now), grants + [Grant(id, userId)];
    forall g | g in grants
      ensures g.id != id
    {
    }
    forall other: InviteId | other in db'.rows && db'.rows[other].acceptedAt.Some?
      ensures HasGrant(grants', other)
    {
      if other == id {
        assert Grant(id, userId) in grants';
      } else {
        var g :| g in grants && g.id == other;
        assert g in grants';
      }
    }
  }

  lemma ChangeKeepsGrants(db: Db, grants: seq<Grant>, id: InviteId, change: Change, now: Time)
    requires GrantsOk(db.rows, db.members, grants) && id in db.rows
    ensures GrantsOk(db.rows[id := Changed(db.rows[id], change, now)], db.members, grants)
  {
  }

  lemma StepKeepsGrants(s: State, e: Event)
    requires Inv(s) && Enabled(s, e)
    ensures GrantsOk(Next(s, e).db.rows, Next(s, e).db.members, Next(s, e).grants)
  {
    hide GrantsOk, StampsOk;
    match e
    case Advance(call, found) =>
      match s.calls[call] {
        case Ready(id, userId) =>
          assert CallOk(s, s.calls[call]);
          if AcceptTx(s.db, id, userId, s.now).1.Joined? {
            GrantKeepsGrants(s.db, s.grants, id, userId, s.now);
          }
        case Cleared(change, id) =>
          assert CallOk(s, s.calls[call]);
          ChangeKeepsGrants(s.db, s.grants, id, change, s.now);
        case _ =>
      }
    case Register(userId, email, tokenHash, found) =>
      if RegisterTx(s.db, found, userId, email, s.now).1 {
        GrantKeepsGrants(s.db, s.grants, found.value, userId, s.now);
      }
    case Invite(id, workspaceId, email, tokenHash, expiresAt) =>
      InviteKeepsGrants(s.db, s.grants, id, Row(workspaceId, email, tokenHash, expiresAt, None, None, None, None));
    case _ =>
  }

  lemma InviteKeepsGrants(db: Db, grants: seq<Grant>, id: InviteId, row: Row)
    requires GrantsOk(db.rows, db.members, grants) && id !in db.rows && row.acceptedAt.None?
    ensures GrantsOk(db.rows[id := row], db.members, grants)
  {
  }

  /** Rows are never removed, and change only as the calls change them. */
  lemma RowsStep(s: State, e: Event, id: InviteId)
    requires Inv(s) && Enabled(s, e) && id in s.db.rows
    ensures id in Next(s, e).db.rows && RowStep(s.db.rows[id], Next(s, e).db.rows[id], s.now)
  {
    hide GrantsOk, StampsOk, StatusOf;
    StatusByStamps(s.db.rows[id], s.now);
    if e.Advance? && s.calls[e.call].Cleared? {
      ChangeIsRowStep(s.db.rows[id], s.calls[e.call].change, s.now);
    }
  }

  lemma ChangeIsRowStep(row: Row, change: Change, now: Time)
    ensures RowStep(row, Changed(row, change, now), now)
  {
    if change.Resend? {
      assert Changed(row, change, now) == row.(tokenHash := change.tokenHash, expiresAt := change.expiresAt);
    }
  }

  /** A revoke, a decline or a resend goes on from a row that was still open when it is checked, and no other. */
  lemma CheckStep(s: State, e: Event)
    requires Enabled(s, e) && e.Advance? && s.calls[e.call].Found?
    ensures
      var held := s.calls[e.call];
      var next := if Open(held.read, s.now) then Cleared(held.change, held.id) else Answered(NotFound);
      Next(s, e) == s.(calls := s.calls[e.call := next])
  {
  }

  /** And then it writes, on whatever the row is by now. */
  lemma WriteStep(s: State, e: Event)
    requires Inv(s) && Enabled(s, e) && e.Advance? && s.calls[e.call].Cleared?
    ensures
      var held := s.calls[e.call];
      && held.id in s.db.rows
      && var row := s.db.rows[held.id];
         var written := match held.change
           case Revoke => row.(revokedAt := Some(s.now))
           case Decline => row.(declinedAt := Some(s.now))
           case Resend(tokenHash, expiresAt) => row.(tokenHash := tokenHash, expiresAt := expiresAt);
      Next(s, e) == s.(calls := s.calls[e.call := Answered(Done)], db := s.db.(rows := s.db.rows[held.id := written]))
  {
    assert CallOk(s, s.calls[e.call]);
  }

  /** A registration makes the account, and joins it if its token names an open invitation to that address. */
  lemma RegisterStep(s: State, e: Event)
    requires Inv(s) && Enabled(s, e) && e.Register?
    ensures
      var users := s.users[e.userId := e.email];
      if && e.found.Some? && Open(s.db.rows[e.found.value], s.now) && s.db.rows[e.found.value].email == e.email
         && Member(e.userId, s.db.rows[e.found.value].workspaceId) !in s.db.members
      then
        var id, row := e.found.value, s.db.rows[e.found.value];
        Next(s, e) == s.(
          users := users, grants := s.grants + [Grant(id, e.userId)],
          db := Db(s.db.rows[id := row.(acceptedAt := Some(s.now), acceptedBy := Some(e.userId))],
                   s.db.members + {Member(e.userId, row.workspaceId)}))
      else Next(s, e) == s.(users := users)
  {
  }

  /** An invitation is stored open, and touches nothing else. */
  lemma InviteStep(s: State, e: Event)
    requires Enabled(s, e) && e.Invite?
    ensures
      var row := Row(e.workspaceId, e.email, e.tokenHash, e.expiresAt, None, None, None, None);
      Next(s, e) == s.(db := s.db.(rows := s.db.rows[e.id := row]))
  {
  }

  /** The transaction of an accept, on whatever it finds under the lock. */
  lemma LockedStep(s: State, e: Event)
    requires Inv(s) && Enabled(s, e) && e.Advance? && s.calls[e.call].Ready?
    ensures
      var id, userId := s.calls[e.call].id, s.calls[e.call].userId;
      && id in s.db.rows
      && var row := s.db.rows[id];
         var member := Member(userId, row.workspaceId);
      if Open(row, s.now) && member !in s.db.members then
        Next(s, e) == s.(
          calls := s.calls[e.call := Answered(Joined(member))], grants := s.grants + [Grant(id, userId)],
          db := Db(s.db.rows[id := row.(acceptedAt := Some(s.now), acceptedBy := Some(userId))], s.db.members + {member}))
      else
        var answer := if Lapsed(row, s.now) then Gone
                      else if Open(row, s.now) then Failed
                      else if member in s.db.members then AlreadyMember(member) else NotFound;
        Next(s, e) == s.(calls := s.calls[e.call := Answered(answer)])
  {
    assert CallOk(s, s.calls[e.call]);
  }

  lemma RowStepKeepsStamps(before: Row, after: Row, now: Time)
    requires StampsOk(before, now) && RowStep(before, after, now)
    ensures StampsOk(after, now)
    ensures before.acceptedAt.Some? ==> after.acceptedAt == before.acceptedAt
    ensures before.revokedAt.Some? ==> after.revokedAt.Some?
    ensures before.declinedAt.Some? ==> after.declinedAt.Some?
    ensures after.email == before.email && after.workspaceId == before.workspaceId
  {
  }

  lemma NextKeeps(s: State, e: Event)
    requires Inv(s) && Enabled(s, e)
    ensures Inv(Next(s, e)) && s.now <= Next(s, e).now
  {
    hide Next, Enabled, StampsOk, GrantsOk, CallOk, Addressed;
    var next := Next(s, e);
    GrantsStayAddressed(s, e);
    StepKeepsGrants(s, e);
    TimeMovesOn(s, e);
    forall id: InviteId | id in next.db.rows
      ensures StampsOk(next.db.rows[id], next.now)
    {
      StampsStayOk(s, e, id);
    }
    forall call: CallId | call in next.calls
      ensures CallOk(next, next.calls[call])
    {
      CallsStayOk(s, e, call);
    }
  }

  lemma AddressStays(s: State, e: Event, id: InviteId, userId: UserId)
    requires Inv(s) && Enabled(s, e) && Addressed(s, id, userId)
    ensures Addressed(Next(s, e), id, userId)
  {
    hide GrantsOk, StampsOk, StatusOf;
    RowsStep(s, e, id);
  }

  lemma GrantsStayAddressed(s: State, e: Event)
    requires Inv(s) && Enabled(s, e)
    ensures forall g :: g in Next(s, e).grants ==> Addressed(Next(s, e), g.id, g.userId)
  {
    hide GrantsOk, StampsOk, Next, Addressed, StatusOf;
    forall g | g in s.grants
      ensures Addressed(Next(s, e), g.id, g.userId)
    {
      AddressStays(s, e, g.id, g.userId);
    }
    if Next(s, e).grants != s.grants {
      GrantsOnlyFromPending(s, e);
    }
  }

  lemma TimeMovesOn(s: State, e: Event)
    requires Enabled(s, e)
    ensures s.now <= Next(s, e).now
    ensures Next(s, e).now == if e.Tick? then s.now + e.ms else s.now
  {
  }

  lemma StampsStayOk(s: State, e: Event, id: InviteId)
    requires Inv(s) && Enabled(s, e) && id in Next(s, e).db.rows
    ensures StampsOk(Next(s, e).db.rows[id], Next(s, e).now)
  {
    hide GrantsOk;
    TimeMovesOn(s, e);
    if id in s.db.rows {
      RowsStep(s, e, id);
      RowStepKeepsStamps(s.db.rows[id], Next(s, e).db.rows[id], s.now);
    } else {
      NewRowsAreFresh(s, e, id);
    }
  }

  lemma NewRowsAreFresh(s: State, e: Event, id: InviteId)
    requires Inv(s) && Enabled(s, e) && id in Next(s, e).db.rows && id !in s.db.rows
    ensures e.Invite? && e.id == id
    ensures Next(s, e).db.rows[id] == Row(e.workspaceId, e.email, e.tokenHash, e.expiresAt, None, None, None, None)
  {
    hide GrantsOk, StampsOk, StatusOf;
  }

  lemma CallsStayOk(s: State, e: Event, call: CallId)
    requires Inv(s) && Enabled(s, e) && call in Next(s, e).calls
    ensures CallOk(Next(s, e), Next(s, e).calls[call])
  {
    hide GrantsOk, StampsOk, StatusOf, Addressed;
    assert call in s.calls ==> CallOk(s, s.calls[call]);
    forall id: InviteId | id in s.db.rows
      ensures id in Next(s, e).db.rows
    {
      RowsStep(s, e, id);
    }
    forall id: InviteId, userId: UserId | Addressed(s, id, userId)
      ensures Addressed(Next(s, e), id, userId)
    {
      AddressStays(s, e, id, userId);
    }
    if e.Advance? && s.calls[e.call].Asked? && s.calls[e.call].request.Accept? {
      BindsAddressed(s, e.call, e.found);
    }
  }

  lemma BindsAddressed(s: State, call: CallId, found: Option<InviteId>)
    requires call in s.calls && s.calls[call].Asked? && s.calls[call].request.Accept?
    ensures
      var request := s.calls[call].request;
      Bind(s, request.tokenHash, request.userId, found).None? ==>
      found.Some? && Addressed(s, found.value, request.userId)
  {
  }

  lemma {:induction false} RunKeeps(s: State, events: seq<Event>)
    requires Inv(s) && IsRun(s, events)
    ensures Inv(After(s, events)) && s.now <= After(s, events).now
    decreases |events|
  {
    if events != [] {
      NextKeeps(s, events[0]);
      RunKeeps(Next(s, events[0]), events[1..]);
    }
  }

  /** In every run an invitation creates at most one membership, and one exactly if its row is stamped accepted. */
  lemma EveryRunIsSafe(s: State, events: seq<Event>)
    requires Initial(s) && IsRun(s, events)
    ensures
      var t := After(s, events);
      && (forall i, j :: 0 <= i < j < |t.grants| ==> t.grants[i].id != t.grants[j].id)
      && (forall id: InviteId :: id in t.db.rows ==>
            (HasGrant(t.grants, id) <==> t.db.rows[id].acceptedAt.Some?))
      && (forall g :: g in t.grants ==>
            Addressed(t, g.id, g.userId) && Member(g.userId, t.db.rows[g.id].workspaceId) in t.db.members)
  {
    RunKeeps(s, events);
  }

  /** A membership is created only by a step that meets a pending row addressed to that user. */
  lemma GrantsOnlyFromPending(s: State, e: Event)
    requires Inv(s) && Enabled(s, e) && Next(s, e).grants != s.grants
    ensures
      exists g :: && Next(s, e).grants == s.grants + [g]
                  && g.id in s.db.rows && Open(s.db.rows[g.id], s.now)
                  && Next(s, e).db.rows ==
                       s.db.rows[g.id := s.db.rows[g.id].(acceptedAt := Some(s.now), acceptedBy := Some(g.userId))]
                  && Next(s, e).db.members == s.db.members + {Member(g.userId, s.db.rows[g.id].workspaceId)}
                  && Addressed(Next(s, e), g.id, g.userId)
  {
    hide GrantsOk, StampsOk;
    match e
    case Advance(call, found) =>
      if s.calls[call].Ready? {
        var g := Grant(s.calls[call].id, s.calls[call].userId);
        assert CallOk(s, s.calls[call]);
        assert Next(s, e).grants == s.grants + [g];
      }
    case Register(userId, email, tokenHash, found) =>
      if found.Some? {
        assert Next(s, e).grants == s.grants + [Grant(found.value, userId)];
      }
    case _ =>
  }

  ghost predicate Closed(s: State, id: InviteId) {
    id in s.db.rows && (s.db.rows[id].revokedAt.Some? || s.db.rows[id].declinedAt.Some?)
  }

  lemma ClosedStep(s: State, e: Event, id: InviteId)
    requires Inv(s) && Enabled(s, e) && Closed(s, id)
    ensures Closed(Next(s, e), id)
    ensures HasGrant(Next(s, e).grants, id) <==> HasGrant(s.grants, id)
  {
    hide GrantsOk, StampsOk, Next;
    RowsStep(s, e, id);
    RowStepClosed(s.db.rows[id], Next(s, e).db.rows[id], s.now);
    if Next(s, e).grants != s.grants {
      GrantsOnlyFromPending(s, e);
      var g :| Next(s, e).grants == s.grants + [g]
               && g.id in s.db.rows && Open(s.db.rows[g.id], s.now);
      assert g.id != id;
      assert forall h :: h in s.grants + [g] <==> h in s.grants || h == g;
    }
  }

  lemma RowStepClosed(before: Row, after: Row, now: Time)
    requires RowStep(before, after, now)
    ensures before.revokedAt.Some? ==> after.revokedAt.Some?
    ensures before.declinedAt.Some? ==> after.declinedAt.Some?
  {
  }

  /** After a revoke or decline is stamped no run creates a membership from the invitation, whatever is in flight. */
  lemma {:induction false} ClosedGrantsNothing(s: State, events: seq<Event>, id: InviteId)
    requires Inv(s) && IsRun(s, events) && Closed(s, id)
    ensures Closed(After(s, events), id)
    ensures HasGrant(After(s, events).grants, id) <==> HasGrant(s.grants, id)
    decreases |events|
  {
    hide Inv, Closed, Next, HasGrant, Enabled;
    if events != [] {
      NextKeeps(s, events[0]);
      ClosedStep(s, events[0], id);
      ClosedGrantsNothing(Next(s, events[0]), events[1..], id);
    }
  }

  /** An acceptance is stamped once and never changes. */
  lemma {:induction false} AcceptanceStays(s: State, events: seq<Event>, id: InviteId)
    requires Inv(s) && IsRun(s, events) && id in s.db.rows && s.db.rows[id].acceptedAt.Some?
    ensures id in After(s, events).db.rows
    ensures After(s, events).db.rows[id].acceptedAt == s.db.rows[id].acceptedAt
    ensures After(s, events).db.rows[id].acceptedBy == s.db.rows[id].acceptedBy
    decreases |events|
  {
    if events != [] {
      NextKeeps(s, events[0]);
      AcceptanceStep(s, events[0], id);
      AcceptanceStays(Next(s, events[0]), events[1..], id);
    }
  }

  lemma AcceptanceStep(s: State, e: Event, id: InviteId)
    requires Inv(s) && Enabled(s, e) && id in s.db.rows && s.db.rows[id].acceptedAt.Some?
    ensures id in Next(s, e).db.rows
    ensures Next(s, e).db.rows[id].acceptedAt == s.db.rows[id].acceptedAt
    ensures Next(s, e).db.rows[id].acceptedBy == s.db.rows[id].acceptedBy
  {
    hide GrantsOk, StampsOk, Next;
    RowsStep(s, e, id);
  }

  // ---- What the missing lock on revoke leaves open ----

  ghost predicate ClosedMember(s: State, id: InviteId) {
    Closed(s, id) && HasGrant(s.grants, id)
  }

  /** The guard revoke and decline leave out: the step writes a refusal on a row that is accepted by now. */
  ghost predicate WritesOver(s: State, e: Event, id: InviteId) {
    && e.Advance? && e.call in s.calls && s.calls[e.call].Cleared?
    && s.calls[e.call].id == id && !s.calls[e.call].change.Resend?
    && id in s.db.rows && s.db.rows[id].acceptedAt.Some?
  }

  /** Some step of the run writes over an acceptance. */
  ghost predicate Overtakes(s: State, events: seq<Event>, id: InviteId)
    decreases |events|
  {
    events != [] && (WritesOver(s, events[0], id) || Overtakes(Next(s, events[0]), events[1..], id))
  }

  /** Only a cleared revoke or decline closes an invitation, and it creates no membership. */
  lemma ClosingStep(s: State, e: Event, id: InviteId)
    requires Inv(s) && Enabled(s, e) && !Closed(s, id) && Closed(Next(s, e), id)
    ensures id in s.db.rows && e.Advance? && e.call in s.calls && s.calls[e.call].Cleared?
    ensures s.calls[e.call].id == id && !s.calls[e.call].change.Resend?
    ensures Next(s, e).grants == s.grants
  {
    hide GrantsOk, StampsOk, StatusOf;
    if id !in s.db.rows {
      NewRowsAreFresh(s, e, id);
    }
  }

  lemma WritesOverCloses(s: State, e: Event, id: InviteId)
    requires Inv(s) && Enabled(s, e) && WritesOver(s, e, id)
    ensures ClosedMember(Next(s, e), id)
  {
    hide StampsOk, StatusOf;
  }

  lemma ClosedMemberStep(s: State, e: Event, id: InviteId)
    requires Inv(s) && Enabled(s, e)
    ensures ClosedMember(Next(s, e), id) <==> ClosedMember(s, id) || WritesOver(s, e, id)
  {
    if WritesOver(s, e, id) {
      WritesOverCloses(s, e, id);
    } else if Closed(s, id) {
      ClosedStep(s, e, id);
    } else if ClosedMember(Next(s, e), id) {
      ClosingStep(s, e, id);
      GrantedIsAccepted(s, id);
    }
  }

  lemma GrantedIsAccepted(s: State, id: InviteId)
    requires Inv(s) && HasGrant(s.grants, id)
    ensures id in s.db.rows && s.db.rows[id].acceptedAt.Some?
  {
    var g :| g in s.grants && g.id == id;
  }

  /**
   * A run leaves an invitation closed with a member exactly if it was so before,
   * or some step of the run writes a revoke or decline over an acceptance.
   */
  lemma {:induction false} ClosedMemberIffOvertaken(s: State, events: seq<Event>, id: InviteId)
    requires Inv(s) && IsRun(s, events)
    ensures ClosedMember(After(s, events), id) <==> ClosedMember(s, id) || Overtakes(s, events, id)
    decreases |events|
  {
    hide Inv, ClosedMember, Next, Enabled, WritesOver;
    if events != [] {
      NextKeeps(s, events[0]);
      ClosedMemberStep(s, events[0], id);
      ClosedMemberIffOvertaken(Next(s, events[0]), events[1..], id);
    }
  }

  /** From the empty tables on: exactly the overtaking runs. */
  lemma ClosedMemberFromStart(s: State, events: seq<Event>, id: InviteId)
    requires Initial(s) && IsRun(s, events)
    ensures ClosedMember(After(s, events), id) <==> Overtakes(s, events, id)
  {
    ClosedMemberIffOvertaken(s, events, id);
  }

  /** A closed invitation with a membership was accepted first: the refusal's stamp is not the earlier one. */
  lemma ClosedMembersWereFirst(s: State, events: seq<Event>, id: InviteId)
    requires Initial(s) && IsRun(s, events) && Closed(After(s, events), id)
    ensures
      var t := After(s, events);
      && (HasGrant(t.grants, id) <==> t.db.rows[id].acceptedAt.Some?)
      && (HasGrant(t.grants, id) ==>
            var row := t.db.rows[id];
            && (row.revokedAt.Some? ==> row.acceptedAt.value <= row.revokedAt.value)
            && (row.declinedAt.Some? ==> row.acceptedAt.value <= row.declinedAt.value))
  {
    RunKeeps(s, events);
  }

  lemma RunStep(s: State, e: Event, t: State, rest: seq<Event>)
    requires Enabled(s, e) && Next(s, e) == t && IsRun(t, rest)
    ensures IsRun(s, [e] + rest) && After(s, [e] + rest) == After(t, rest)
  {
    assert ([e] + rest)[1..] == rest;
  }

  function Fresh(email: Email): Row {
    Row(3, email, 5, 10, None, None, None, None)
  }

  /** The revoke has read and checked the pending row, and has not written yet. */
  function Held(users: map<UserId, Email>, email: Email): State {
    State(Db(map[1 := Fresh(email)], {}), users, 0, map[0 := Cleared(Revoke, 1)], [])
  }

  /** The invitation is sent, and the admin's revoke reads and checks it. */
  lemma RevokeReads(users: map<UserId, Email>, email: Email, rest: seq<Event>) returns (events: seq<Event>)
    requires IsRun(Held(users, email), rest)
    ensures
      var s := State(Db(map[], {}), users, 0, map[], []);
      IsRun(s, events) && After(s, events) == After(Held(users, email), rest)
  {
    hide After, IsRun;
    var s := State(Db(map[], {}), users, 0, map[], []);
    var rows := map[1 := Fresh(email)];
    var s1 := State(Db(rows, {}), users, 0, map[], []);
    var s2 := s1.(calls := map[0 := Asked(ByAdmin(3, 1, Revoke))]);
    var s3 := s1.(calls := map[0 := Found(Revoke, 1, Fresh(email))]);
    var s4 := s1.(calls := map[0 := Cleared(Revoke, 1)]);
    RunStep(s3, Advance(0, None), s4, rest);
    RunStep(s2, Advance(0, None), s3, [Advance(0, None)] + rest);
    RunStep(s1, Begin(0, ByAdmin(3, 1, Revoke)), s2, [Advance(0, None)] + ([Advance(0, None)] + rest));
    var later := [Begin(0, ByAdmin(3, 1, Revoke))] + ([Advance(0, None)] + ([Advance(0, None)] + rest));
    RunStep(s, Invite(1, 3, email, 5, 10), s1, later);
    events := [Invite(1, 3, email, 5, 10)] + later;
  }

  /** Accepted, and then revoked all the same. */
  function Overtaken(users: map<UserId, Email>, email: Email): State {
    State(Db(map[1 := Fresh(email).(acceptedAt := Some(0), acceptedBy := Some(7), revokedAt := Some(0))], {Member(7, 3)}),
          users, 0, map[0 := Answered(Done), 1 := Answered(Joined(Member(7, 3)))], [Grant(1, 7)])
  }

  /** The recipient's accept has joined, and the revoke still holds its check. */
  function Accepted(users: map<UserId, Email>, email: Email): State {
    State(Db(map[1 := Fresh(email).(acceptedAt := Some(0), acceptedBy := Some(7))], {Member(7, 3)}),
          users, 0, map[0 := Cleared(Revoke, 1), 1 := Answered(Joined(Member(7, 3)))], [Grant(1, 7)])
  }

  /** Meanwhile the recipient accepts. */
  lemma AcceptanceComesBetween(users: map<UserId, Email>, email: Email, rest: seq<Event>) returns (events: seq<Event>)
    requires 7 in users && users[7] == email && IsRun(Accepted(users, email), rest)
    ensures IsRun(Held(users, email), events)
    ensures After(Held(users, email), events) == After(Accepted(users, email), rest)
  {
    hide After, IsRun;
    var held := Cleared(Revoke, 1);
    var s := Held(users, email);
    var s1 := s.(calls := map[0 := held, 1 := Asked(Accept(5, 7))]);
    var s2 := s.(calls := map[0 := held, 1 := Bound(1, 7)]);
    var s3 := s.(calls := map[0 := held, 1 := Ready(1, 7)]);
    JoinStep(users, email, rest);
    RunStep(s2, Advance(1, None), s3, [Advance(1, None)] + rest);
    RunStep(s1, Advance(1, Some(1)), s2, [Advance(1, None)] + ([Advance(1, None)] + rest));
    var later := [Advance(1, Some(1))] + ([Advance(1, None)] + ([Advance(1, None)] + rest));
    RunStep(s, Begin(1, Accept(5, 7)), s1, later);
    events := [Begin(1, Accept(5, 7))] + later;
  }

  lemma JoinStep(users: map<UserId, Email>, email: Email, rest: seq<Event>)
    requires 7 in users && users[7] == email && IsRun(Accepted(users, email), rest)
    ensures
      var s3 := Held(users, email).(calls := map[0 := Cleared(Revoke, 1), 1 := Ready(1, 7)]);
      IsRun(s3, [Advance(1, None)] + rest) && After(s3, [Advance(1, None)] + rest) == After(Accepted(users, email), rest)
  {
    hide After, IsRun;
    var s3 := Held(users, email).(calls := map[0 := Cleared(Revoke, 1), 1 := Ready(1, 7)]);
    RunStep(s3, Advance(1, None), Accepted(users, email), rest);
  }

  /** Then the revoke writes. */
  lemma RevokeWrites(users: map<UserId, Email>, email: Email)
    ensures IsRun(Accepted(users, email), [Advance(0, None)])
    ensures After(Accepted(users, email), [Advance(0, None)]) == Overtaken(users, email)
  {
    hide After, IsRun;
    NoMore(Overtaken(users, email));
    RunStep(Accepted(users, email), Advance(0, None), Overtaken(users, email), []);
    assert [Advance(0, None)] + [] == [Advance(0, None)];
  }

  lemma NoMore(s: State)
    ensures IsRun(s, []) && After(s, []) == s
  {
  }

  /** It happens: a revoke cleared before an acceptance is stamped after it, and the member stays. */
  lemma RevokeMayFollowAcceptance(users: map<UserId, Email>)
    requires 7 in users
    ensures
      var s := State(Db(map[], {}), users, 0, map[], []);
      exists events :: && IsRun(s, events)
                       && 1 in After(s, events).db.rows
                       && StatusOf(After(s, events).db.rows[1], After(s, events).now) == REVOKED
                       && Member(7, 3) in After(s, events).db.members
  {
    hide After, IsRun;
    RevokeWrites(users, users[7]);
    var rest := AcceptanceComesBetween(users, users[7], [Advance(0, None)]);
    var events := RevokeReads(users, users[7], rest);
    assert After(State(Db(map[], {}), users, 0, map[], []), events) == Overtaken(users, users[7]);
  }

  // ---- The calls as they run on their own ----

  ghost predicate UniqueHashes(rows: map<InviteId, Row>) {
    forall a: InviteId, b: InviteId :: a in rows && b in rows && rows[a].tokenHash == rows[b].tokenHash ==> a == b
  }

  /** `acceptInvitation` from start to end, for the row its token names. */
  function WholeAccept(db: Db, users: map<UserId, Email>, found: Option<InviteId>, userId: UserId, now: Time): (Db, Answer)
    requires found.Some? ==> found.value in db.rows
  {
    if found.None? || userId !in users then (db, NotFound)
    else if db.rows[found.value].email != users[userId] then (db, EmailMismatch)
    else
      var member := Member(userId, db.rows[found.value].workspaceId);
      if member in db.members then (db, AlreadyMember(member)) else AcceptTx(db, found.value, userId, now)
  }

  /** A change from start to end: only a pending row is written. */
  function WholeChange(db: Db, id: InviteId, change: Change, now: Time): (Db, Answer)
    requires id in db.rows
  {
    if StatusOf(db.rows[id], now) != PENDING then (db, NotFound)
    else (db.(rows := db.rows[id := Changed(db.rows[id], change, now)]), Done)
  }

  /** `declineInvitation` from start to end. */
  function WholeDecline(db: Db, users: map<UserId, Email>, found: Option<InviteId>, userId: UserId, now: Time): (Db, Answer)
    requires found.Some? ==> found.value in db.rows
  {
    if found.None? || userId !in users then (db, NotFound)
    else if db.rows[found.value].email != users[userId] then (db, EmailMismatch)
    else WholeChange(db, found.value, Decline, now)
  }

  /** `revokeInvitation` and `resendInvitation` from start to end. */
  function WholeByAdmin(db: Db, workspaceId: WorkspaceId, id: InviteId, change: Change, now: Time): (Db, Answer) {
    if id !in db.rows || db.rows[id].workspaceId != workspaceId then (db, NotFound)
    else WholeChange(db, id, change, now)
  }

  // ---- What the calls answer and write, in terms of the timestamps ----

  /** The token names this row, it is addressed to the user, who is not a member yet. */
  ghost predicate Invited(db: Db, users: map<UserId, Email>, id: InviteId, tokenHash: Hash, userId: UserId) {
    && id in db.rows && db.rows[id].tokenHash == tokenHash
    && userId in users && db.rows[id].email == users[userId]
    && Member(userId, db.rows[id].workspaceId) !in db.members
  }

  ghost predicate Unknown(rows: map<InviteId, Row>, tokenHash: Hash) {
    forall id: InviteId :: id in rows ==> rows[id].tokenHash != tokenHash
  }

  ghost predicate AcceptAnswered(db: Db, users: map<UserId, Email>, id: InviteId, userId: UserId, now: Time,
                                 after: Db, answer: Answer)
    requires id in db.rows
  {
    var row := db.rows[id];
    var member := Member(userId, row.workspaceId);
    if userId !in users then after == db && answer == NotFound
    else if row.email != users[userId] then after == db && answer == EmailMismatch
    else if member in db.members then after == db && answer == AlreadyMember(member)
    else if Lapsed(row, now) then after == db && answer == Gone
    else if !Open(row, now) then after == db && answer == NotFound
    else
      && answer == Joined(member)
      && after == Db(db.rows[id := row.(acceptedAt := Some(now), acceptedBy := Some(userId))], db.members + {member})
  }

  lemma AcceptInTerms(db: Db, users: map<UserId, Email>, id: InviteId, userId: UserId, now: Time)
    requires id in db.rows
    ensures
      var (after, answer) := WholeAccept(db, users, Some(id), userId, now);
      AcceptAnswered(db, users, id, userId, now, after, answer)
  {
  }

  class InvitationService {
    var rows: map<InviteId, Row>
    var members: set<Member>
    const users: map<UserId, Email>

    constructor (users: map<UserId, Email>)
      ensures rows == map[] && members == {} && this.users == users
    {
      rows, members := map[], {};
      this.users := users;
    }

    ghost function Contents(): Db
      reads this
    {
      Db(rows, members)
    }

    method FindByTokenHash(tokenHash: Hash) returns (found: Option<InviteId>)
      ensures Finds(rows, tokenHash, found)
    {
      var matching := set id | id in rows && rows[id].tokenHash == tokenHash;
      if matching == {} {
        found := None;
        forall id: InviteId | id in rows
          ensures rows[id].tokenHash != tokenHash
        {
          assert id !in matching;
        }
      } else {
        var id :| id in matching;
        found := Some(id);
      }
    }

    /** The unique key refuses a second membership of one user in one workspace. */
    method CreateMembership(member: Member) returns (created: bool)
      modifies this`members
      ensures created <==> member !in old(members)
      ensures members == old(members) + {member}
    {
      created := member !in members;
      members := members + {member};
    }

    /** A missing row makes the update throw. */
    method Update(id: InviteId, row: Row) returns (updated: bool)
      modifies this`rows
      ensures updated <==> id in old(rows)
      ensures rows == if updated then old(rows)[id := row] else old(rows)
    {
      updated := id in rows;
      if updated {
        rows := rows[id := row];
      }
    }

    method AcceptInvitation(tokenHash: Hash, userId: UserId, now: Time) returns (answer: Answer)
      requires UniqueHashes(rows)
      modifies this
      ensures forall found: Option<InviteId> :: Finds(old(rows), tokenHash, found) ==>
        (Contents(), answer) == WholeAccept(old(Contents()), users, found, userId, now)
      ensures forall id: InviteId :: id in old(rows) && old(rows)[id].tokenHash == tokenHash ==>
        AcceptAnswered(old(Contents()), users, id, userId, now, Contents(), answer)
      ensures Unknown(old(rows), tokenHash) ==> Contents() == old(Contents()) && answer == NotFound
      ensures answer.Joined? <==> exists id: InviteId ::
        Invited(old(Contents()), users, id, tokenHash, userId) && Open(old(rows)[id], now)
      ensures answer.Gone? <==> exists id: InviteId ::
        Invited(old(Contents()), users, id, tokenHash, userId) && Lapsed(old(rows)[id], now)
    {
      var found := FindByTokenHash(tokenHash);
      OnlyOne(rows, tokenHash, found);
      if found.None? || userId !in users {
        return NotFound;
      }
      var id := found.value;
      var invitation := rows[id];
      if invitation.email != users[userId] {
        return EmailMismatch;
      }
      var member := Member(userId, invitation.workspaceId);
      if member in members {
        return AlreadyMember(member);
      }
      var locked := rows[id];
      var status := StatusOf(locked, now);
      if status == EXPIRED {
        return Gone;
      }
      if status != PENDING {
        return NotFound;
      }
      var created := CreateMembership(member);
      if !created {
        return Failed;
      }
      var _ := Update(id, locked.(acceptedAt := Some(now), acceptedBy := Some(userId)));
      return Joined(member);
    }

    method RevokeInvitation(workspaceId: WorkspaceId, id: InviteId, now: Time) returns (answer: Answer)
      modifies this
      ensures (Contents(), answer) == WholeByAdmin(old(Contents()), workspaceId, id, Revoke, now)
      ensures answer ==
        if id in old(rows) && old(rows)[id].workspaceId == workspaceId && Open(old(rows)[id], now) then Done else NotFound
      ensures rows == if answer.Done? then old(rows)[id := old(rows)[id].(revokedAt := Some(now))] else old(rows)
      ensures members == old(members)
    {
      if id !in rows || rows[id].workspaceId != workspaceId {
        return NotFound;
      }
      if StatusOf(rows[id], now) != PENDING {
        return NotFound;
      }
      var _ := Update(id, rows[id].(revokedAt := Some(now)));
      return Done;
    }

    /** The token is rotated: the old link no longer names the row. */
    method ResendInvitation(workspaceId: WorkspaceId, id: InviteId, tokenHash: Hash, expiresAt: Time, now: Time)
      returns (answer: Answer)
      modifies this
      ensures (Contents(), answer) ==
        WholeByAdmin(old(Contents()), workspaceId, id, Resend(tokenHash, expiresAt), now)
      ensures answer ==
        if id in old(rows) && old(rows)[id].workspaceId == workspaceId && Open(old(rows)[id], now) then Done else NotFound
      ensures rows == if !answer.Done? then old(rows)
                      else old(rows)[id := old(rows)[id].(tokenHash := tokenHash, expiresAt := expiresAt)]
      ensures members == old(members)
      ensures answer.Done? && UniqueHashes(old(rows)) && tokenHash != old(rows)[id].tokenHash ==>
                Unknown(rows, old(rows)[id].tokenHash)
    {
      if id !in rows || rows[id].workspaceId != workspaceId {
        return NotFound;
      }
      if StatusOf(rows[id], now) != PENDING {
        return NotFound;
      }
      var _ := Update(id, rows[id].(tokenHash := tokenHash, expiresAt := expiresAt));
      return Done;
    }

    method DeclineInvitation(tokenHash: Hash, userId: UserId, now: Time) returns (answer: Answer)
      requires UniqueHashes(rows)
      modifies this
      ensures forall found: Option<InviteId> :: Finds(old(rows), tokenHash, found) ==>
        (Contents(), answer) == WholeDecline(old(Contents()), users, found, userId, now)
      ensures forall id: InviteId :: id in old(rows) && old(rows)[id].tokenHash == tokenHash ==>
        && answer == (if userId !in users then NotFound
                      else if old(rows)[id].email != users[userId] then EmailMismatch
                      else if Open(old(rows)[id], now) then Done else NotFound)
        && rows == if answer.Done? then old(rows)[id := old(rows)[id].(declinedAt := Some(now))] else old(rows)
      ensures Unknown(old(rows), tokenHash) ==> rows == old(rows) && answer == NotFound
      ensures members == old(members)
    {
      var found := FindByTokenHash(tokenHash);
      OnlyOne(rows, tokenHash, found);
      if found.None? || userId !in users {
        return NotFound;
      }
      var id := found.value;
      if rows[id].email != users[userId] {
        return EmailMismatch;
      }
      if StatusOf(rows[id], now) != PENDING {
        return NotFound;
      }
      var _ := Update(id, rows[id].(declinedAt := Some(now)));
      return Done;
    }

    method ApplyInviteTokenOnRegister(tokenHash: Hash, userId: UserId, email: Email, now: Time) returns (applied: bool)
      requires UniqueHashes(rows)
      modifies this
      ensures forall found: Option<InviteId> :: Finds(old(rows), tokenHash, found) ==>
        (Contents(), applied) == RegisterTx(old(Contents()), found, userId, email, now)
      ensures forall id: InviteId :: id in old(rows) && old(rows)[id].tokenHash == tokenHash ==>
        var row, member := old(rows)[id], Member(userId, old(rows)[id].workspaceId);
        && (applied <==> Open(row, now) && row.email == email && member !in old(members))
        && (applied ==> rows == old(rows)[id := row.(acceptedAt := Some(now), acceptedBy := Some(userId))]
                        && members == old(members) + {member})
      ensures Unknown(old(rows), tokenHash) ==> !applied
      ensures !applied ==> rows == old(rows) && members == old(members)
    {
      var found := FindByTokenHash(tokenHash);
      OnlyOne(rows, tokenHash, found);
      if found.None? {
        return false;
      }
      var row := rows[found.value];
      if StatusOf(row, now) != PENDING || row.email != email {
        return false;
      }
      var created := CreateMembership(Member(userId, row.workspaceId));
      if !created {
        assert members == old(members);
        return false;
      }
      var _ := Update(found.value, row.(acceptedAt := Some(now), acceptedBy := Some(userId)));
      return true;
    }
  }

  lemma OnlyOne(rows: map<InviteId, Row>, tokenHash: Hash, found: Option<InviteId>)
    requires UniqueHashes(rows) && Finds(rows, tokenHash, found)
    ensures forall other: Option<InviteId> :: Finds(rows, tokenHash, other) ==> other == found
  {
  }

  // ---- A call whose steps nothing interrupts ----

  /** The call's own steps, until it has answered. */
  function Alone(s: State, call: CallId, found: Option<InviteId>, steps: nat): State
    decreases steps
  {
    if steps == 0 || call !in s.calls || s.calls[call].Answered? then s
    else Alone(Next(s, Advance(call, found)), call, found, steps - 1)
  }

  /** The call has ended with this table and answer, and nothing else has moved. */
  ghost predicate EndsIn(s: State, t: State, call: CallId, end: (Db, Answer), grant: seq<Grant>) {
    t == State(end.0, s.users, s.now, s.calls[call := Answered(end.1)], s.grants + grant)
  }

  /** `acceptInvitation`, started and run to its end, is `WholeAccept`. */
  lemma AcceptAlone(s: State, call: CallId, tokenHash: Hash, userId: UserId, found: Option<InviteId>)
    requires call !in s.calls && Finds(s.db.rows, tokenHash, found)
    ensures
      var end := WholeAccept(s.db, s.users, found, userId, s.now);
      EndsIn(s, Alone(Next(s, Begin(call, Accept(tokenHash, userId))), call, found, 3), call, end,
             if end.1.Joined? && found.Some? then [Grant(found.value, userId)] else [])
  {
    hide Alone, AcceptTx;
    var s0 := Next(s, Begin(call, Accept(tokenHash, userId)));
    var s1 := Next(s0, Advance(call, found));
    AloneStep(s0, call, found, 3);
    AloneStep(s1, call, found, 2);
    if !s1.calls[call].Answered? {
      BoundAlone(s, s1, call, found.value, userId, found);
    }
  }

  lemma AloneStep(s: State, call: CallId, found: Option<InviteId>, steps: nat)
    requires call in s.calls && steps > 0
    ensures Alone(s, call, found, steps) ==
            if s.calls[call].Answered? then s else Alone(Next(s, Advance(call, found)), call, found, steps - 1)
    ensures Alone(s, call, found, 0) == s
  {
  }

  /** An accept past its email binding, run to its end. */
  lemma BoundAlone(s: State, t: State, call: CallId, id: InviteId, userId: UserId, found: Option<InviteId>)
    requires id in s.db.rows && t == s.(calls := s.calls[call := Bound(id, userId)])
    ensures
      var member := Member(userId, s.db.rows[id].workspaceId);
      var end := if member in s.db.members then (s.db, AlreadyMember(member)) else AcceptTx(s.db, id, userId, s.now);
      EndsIn(s, Alone(t, call, found, 2), call, end, if end.1.Joined? then [Grant(id, userId)] else [])
  {
    hide Alone, AcceptTx;
    var t1 := Next(t, Advance(call, found));
    AloneStep(t, call, found, 2);
    AloneStep(t1, call, found, 1);
    if !t1.calls[call].Answered? {
      AloneStep(Next(t1, Advance(call, found)), call, found, 1);
    }
  }

  /** A change that has read its row, run to its end, is `WholeChange`. */
  lemma ChangeAlone(s: State, t: State, call: CallId, change: Change, id: InviteId, found: Option<InviteId>)
    requires id in s.db.rows && t == s.(calls := s.calls[call := Found(change, id, s.db.rows[id])])
    ensures EndsIn(s, Alone(t, call, found, 2), call, WholeChange(s.db, id, change, s.now), [])
  {
    var t1 := Next(t, Advance(call, found));
    assert Alone(t, call, found, 2) == Alone(t1, call, found, 1);
    if !t1.calls[call].Answered? {
      assert Alone(t1, call, found, 1) == Next(t1, Advance(call, found));
    }
  }

  /** `declineInvitation`, started and run to its end, is `WholeDecline`. */
  lemma DeclineAlone(s: State, call: CallId, tokenHash: Hash, userId: UserId, found: Option<InviteId>)
    requires call !in s.calls && Finds(s.db.rows, tokenHash, found)
    ensures
      EndsIn(s, Alone(Next(s, Begin(call, ByRecipient(tokenHash, userId))), call, found, 3), call,
             WholeDecline(s.db, s.users, found, userId, s.now), [])
  {
    var s0 := Next(s, Begin(call, ByRecipient(tokenHash, userId)));
    var s1 := Next(s0, Advance(call, found));
    assert Alone(s0, call, found, 3) == Alone(s1, call, found, 2);
    if s1.calls[call].Answered? {
      assert Alone(s1, call, found, 2) == s1;
    } else {
      ChangeAlone(s, s1, call, Decline, found.value, found);
    }
  }

  /** `revokeInvitation` and `resendInvitation`, started and run to their end, are `WholeByAdmin`. */
  lemma ByAdminAlone(s: State, call: CallId, workspaceId: WorkspaceId, id: InviteId, change: Change)
    requires call !in s.calls && !change.Decline?
    ensures
      EndsIn(s, Alone(Next(s, Begin(call, ByAdmin(workspaceId, id, change))), call, None, 3), call,
             WholeByAdmin(s.db, workspaceId, id, change, s.now), [])
  {
    var s0 := Next(s, Begin(call, ByAdmin(workspaceId, id, change)));
    var s1 := Next(s0, Advance(call, None));
    assert Alone(s0, call, None, 3) == Alone(s1, call, None, 2);
    if s1.calls[call].Answered? {
      assert Alone(s1, call, None, 2) == s1;
    } else {
      ChangeAlone(s, s1, call, change, id, None);
    }
  }

  /** Run on its own, no change touches an accepted invitation, and an accepted invitation is answered, not repeated. */
  lemma AloneNothingFollowsAcceptance(db: Db, users: map<UserId, Email>, id: InviteId, userId: UserId, now: Time,
                                      change: Change, later: Time)
    requires id in db.rows && WholeAccept(db, users, Some(id), userId, now).1.Joined?
    ensures
      var db' := WholeAccept(db, users, Some(id), userId, now).0;
      var member := Member(userId, db.rows[id].workspaceId);
      && id in db'.rows && StatusOf(db'.rows[id], later) == ACCEPTED
      && WholeChange(db', id, change, later) == (db', NotFound)
      && WholeAccept(db', users, Some(id), userId, later) == (db', AlreadyMember(member))
  {
  }
}
