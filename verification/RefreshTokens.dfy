/**
 * Refresh-token rotation as a protocol over database rows: the repository's
 * statements, the steps a request takes between two awaits, and the machine
 * that interleaves any number of requests.
 *
 * One repository call, or one transaction, is one step. A request carries the
 * row it read, so a step may act on a stale copy.
 */
module RefreshTokens {
  import opened Prelude

  type RowId = nat
  type Hash = nat
  type Family = nat
  type UserId = nat
  type RequestId = nat

  const REFRESH_GRACE_MS: int := 10 * 1000

  datatype Row = Row(userId: UserId, tokenHash: Hash, familyId: Family, expiresAt: int,
                     revokedAt: Option<int>, replacedById: Option<RowId>)

  /** The table, the server's clock, and the configured lifetime of a token. */
  datatype Db = Db(rows: map<RowId, Row>, now: int, ttl: int)

  predicate Live(rows: map<RowId, Row>, id: RowId) {
    id in rows && rows[id].revokedAt.None?
  }

  // ---- The repository's statements ----

  /** `revokedAt: null` in a filter, `revokedAt: now` in the data: an older stamp survives. */
  function Stamp(row: Row, now: int): Row {
    if row.revokedAt.None? then row.(revokedAt := Some(now)) else row
  }

  function RevokeFamily(rows: map<RowId, Row>, family: Family, now: int): map<RowId, Row> {
    map id | id in rows :: if rows[id].familyId == family then Stamp(rows[id], now) else rows[id]
  }

  function RevokeUser(rows: map<RowId, Row>, user: UserId, now: int): map<RowId, Row> {
    map id | id in rows :: if rows[id].userId == user then Stamp(rows[id], now) else rows[id]
  }

  datatype Snapshot = Snapshot(id: RowId, row: Row)

  /** `findUnique` on the unique `tokenHash`. */
  ghost function FindByHash(rows: map<RowId, Row>, hash: Hash): Option<Snapshot> {
    if exists id :: id in rows && rows[id].tokenHash == hash
    then var id :| id in rows && rows[id].tokenHash == hash; Some(Snapshot(id, rows[id]))
    else None
  }

  function FindById(rows: map<RowId, Row>, id: RowId): Option<Row> {
    if id in rows then Some(rows[id]) else None
  }

  function SignedIn(db: Db, user: UserId, id: RowId, hash: Hash, family: Family): Db {
    db.(rows := db.rows[id := Row(user, hash, family, db.now + db.ttl, None, None)])
  }

  /** The rotation transaction: claim, insert the successor, link. `false` when the claim matched no row. */
  function Rotate(db: Db, record: Snapshot, newId: RowId, newHash: Hash): (Db, bool) {
    if Live(db.rows, record.id) then
      var claimed := db.rows[record.id := Stamp(db.rows[record.id], db.now)];
      var inserted := claimed[newId := Row(record.row.userId, newHash, record.row.familyId, db.now + db.ttl, None, None)];
      (db.(rows := inserted[record.id := inserted[record.id].(replacedById := Some(newId))]), true)
    else
      (db, false)
  }

  // ---- One request, between its awaits ----

  datatype Outcome =
    | Rotated(from: RowId, to: RowId, familyId: Family, refreshToken: Hash)
    | Replayed(familyId: Family)          // an access token, and no refresh token
    | Invalid
    | Expired
    | Reused(familyId: Family)
    | LoggedOut
    | Crashed                             // a property read off a missing row or a null stamp

  datatype Phase =
    | Presented(hash: Hash)
    | Loaded(found: Option<Snapshot>)
    | Claiming(record: Snapshot)
    | Lost(record: Snapshot)
    | Spent(record: Snapshot)
    | Fetching(record: Snapshot, next: RowId)
    | Fetched(record: Snapshot, replacement: Option<Row>)
    | Killing(familyId: Family)
    | LogoutPresented(hash: Hash)
    | Ending(familyId: Family)
    | Done(outcome: Outcome)

  /** Where a refresh starts: no cookie is refused before the database is asked. */
  function RefreshStart(token: Option<Hash>): Phase {
    match token
    case None => Done(Invalid)
    case Some(hash) => Presented(hash)
  }

  /** Where a logout starts: a verified access token names its family; else a refresh token, else nothing. */
  function LogoutStart(fid: Option<Family>, token: Option<Hash>): Phase {
    match (fid, token)
    case (Some(family), _) => Ending(family)
    case (None, Some(hash)) => LogoutPresented(hash)
    case (None, None) => Done(LoggedOut)
  }

  /** `refreshFromRevoked` up to its first await. */
  function CheckSpent(record: Snapshot, now: int): Phase {
    match record.row.revokedAt
    case None => Done(Crashed)
    case Some(at) =>
      if now - at <= REFRESH_GRACE_MS && record.row.replacedById.Some?
      then Fetching(record, record.row.replacedById.value)
      else Killing(record.row.familyId)
  }

  /** The request's next step: one database call, and the checks up to the next one. */
  ghost function Advance(db: Db, phase: Phase, newId: RowId, newHash: Hash): (Db, Phase) {
    match phase
    case Presented(hash) =>
      (db, Loaded(FindByHash(db.rows, hash)))
    case Loaded(None) =>
      (db, Done(Invalid))
    case Loaded(Some(record)) =>
      (db, if record.row.revokedAt.Some? then Spent(record)
           else if record.row.expiresAt <= db.now then Done(Expired)
           else Claiming(record))
    case Claiming(record) =>
      var (db', won) := Rotate(db, record, newId, newHash);
      (db', if won then Done(Rotated(record.id, newId, record.row.familyId, newHash)) else Lost(record))
    case Lost(record) =>
      (db, match FindByHash(db.rows, record.row.tokenHash)
           case None => Done(Crashed)
           case Some(again) => Spent(again))
    case Spent(record) =>
      (db, CheckSpent(record, db.now))
    case Fetching(record, next) =>
      (db, Fetched(record, FindById(db.rows, next)))
    case Fetched(record, replacement) =>
      (db, if replacement.Some? && replacement.value.revokedAt.None?
           then Done(Replayed(replacement.value.familyId))
           else Killing(record.row.familyId))
    case Killing(family) =>
      (db.(rows := RevokeFamily(db.rows, family, db.now)), Done(Reused(family)))
    case LogoutPresented(hash) =>
      (db, match FindByHash(db.rows, hash)
           case None => Done(LoggedOut)
           case Some(record) => Ending(record.row.familyId))
    case Ending(family) =>
      (db.(rows := RevokeFamily(db.rows, family, db.now)), Done(LoggedOut))
    case Done(_) =>
      (db, phase)
  }

  /** Steps a request may still take. */
  function StepsLeft(phase: Phase): nat {
    match phase
    case Presented(_) => 8
    case Loaded(_) => 7
    case Claiming(_) => 6
    case Lost(_) => 5
    case Spent(_) => 4
    case Fetching(_, _) => 3
    case Fetched(_, _) => 2
    case Killing(_) => 1
    case LogoutPresented(_) => 2
    case Ending(_) => 1
    case Done(_) => 0
  }

  /** The rest of a request that nothing interrupts. */
  ghost function Finish(db: Db, phase: Phase, newId: RowId, newHash: Hash): (Db, Outcome)
    decreases StepsLeft(phase)
  {
    if phase.Done? then (db, phase.outcome)
    else
      var (db', phase') := Advance(db, phase, newId, newHash);
      Finish(db', phase', newId, newHash)
  }

  // ---- Any number of requests ----

  datatype State = State(db: Db, requests: map<RequestId, Phase>)

  datatype Event =
    | Tick(at: int)
    | SignIn(user: UserId, id: RowId, hash: Hash, family: Family)
    | ResetPassword(user: UserId)
    | Call(request: RequestId, phase: Phase)
    | Step(request: RequestId, newId: RowId, newHash: Hash)

  ghost predicate FreshHash(rows: map<RowId, Row>, hash: Hash) {
    forall id :: id in rows ==> rows[id].tokenHash != hash
  }

  ghost predicate Issued(rows: map<RowId, Row>, family: Family) {
    exists id :: id in rows && rows[id].familyId == family
  }

  /**
   * What the environment may do: the clock moves forward, minted ids, hashes and
   * families are new, and a verified access token names a family that was issued.
   */
  ghost predicate Enabled(s: State, e: Event) {
    match e
    case Tick(at) => s.db.now <= at
    case SignIn(_, id, hash, family) =>
      id !in s.db.rows && FreshHash(s.db.rows, hash) && !Issued(s.db.rows, family)
    case ResetPassword(_) => true
    case Call(r, phase) =>
      && r !in s.requests
      && ((exists token :: phase == RefreshStart(token))
          || (exists fid: Option<Family>, token ::
                phase == LogoutStart(fid, token) && (fid.Some? ==> Issued(s.db.rows, fid.value))))
    case Step(r, newId, newHash) =>
      r in s.requests && newId !in s.db.rows && FreshHash(s.db.rows, newHash)
  }

  ghost function Next(s: State, e: Event): State {
    match e
    case Tick(at) => s.(db := s.db.(now := at))
    case SignIn(user, id, hash, family) => s.(db := SignedIn(s.db, user, id, hash, family))
    case ResetPassword(user) => s.(db := s.db.(rows := RevokeUser(s.db.rows, user, s.db.now)))
    case Call(r, phase) => s.(requests := s.requests[r := phase])
    case Step(r, newId, newHash) =>
      if r !in s.requests then s
      else
        var (db, phase) := Advance(s.db, s.requests[r], newId, newHash);
        State(db, s.requests[r := phase])
  }

  ghost predicate IsRun(s: State, events: seq<Event>)
    decreases |events|
  {
    events == [] || (Enabled(s, events[0]) && IsRun(Next(s, events[0]), events[1..]))
  }

  ghost function After(s: State, events: seq<Event>): State
    decreases |events|
  {
    if events == [] then s else After(Next(s, events[0]), events[1..])
  }

  ghost predicate Initial(s: State) {
    s.db.rows == map[] && s.requests == map[]
  }
}
