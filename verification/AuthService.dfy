/**
 * The auth service over its token table, statement by statement. Each method
 * is one call that nothing interrupts; its contract ties it to the steps the
 * interleaved machine takes.
 */
module AuthService {
  import opened Prelude
  import opened RefreshTokens
  import opened RefreshSafety

  /** One step of a request that nothing interrupts leaves the rest of it to do. */
  lemma FinishStep(db: Db, phase: Phase, newId: RowId, newHash: Hash)
    requires !phase.Done?
    ensures var (db', phase') := Advance(db, phase, newId, newHash);
      Finish(db, phase, newId, newHash) == Finish(db', phase', newId, newHash)
  {
  }

  // ---- What a call answers and leaves, in terms of the rows alone ----

  /** The family's rows are stamped, an older stamp kept, and no other row is touched. */
  ghost predicate FamilyEnded(before: map<RowId, Row>, after: map<RowId, Row>, family: Family, now: int) {
    && after.Keys == before.Keys
    && forall id :: id in before ==>
         after[id] == if before[id].familyId == family && before[id].revokedAt.None?
                      then before[id].(revokedAt := Some(now)) else before[id]
  }

  /** The same for the user's rows. */
  ghost predicate UserEnded(before: map<RowId, Row>, after: map<RowId, Row>, user: UserId, now: int) {
    && after.Keys == before.Keys
    && forall id :: id in before ==>
         after[id] == if before[id].userId == user && before[id].revokedAt.None?
                      then before[id].(revokedAt := Some(now)) else before[id]
  }

  /** A revoked token: a replay within ten seconds if its successor is live, else its family ends. */
  ghost predicate AnsweredSpent(db: Db, row: Row, after: Db, outcome: Outcome) {
    row.revokedAt.Some? &&
    if && db.now - row.revokedAt.value <= 10_000
       && (exists next :: row.replacedById == Some(next) && next in db.rows && db.rows[next].revokedAt.None?)
    then after == db && outcome == Replayed(row.familyId)
    else
      && FamilyEnded(db.rows, after.rows, row.familyId, db.now) && after == db.(rows := after.rows)
      && outcome == Reused(row.familyId)
  }

  /** What a refresh with the token of row `id` answers and leaves. A spent token is told before an expired one. */
  ghost predicate AnsweredRefresh(db: Db, id: RowId, after: Db, outcome: Outcome, newId: RowId, newHash: Hash)
    requires id in db.rows
  {
    var row := db.rows[id];
    if row.revokedAt.Some? then AnsweredSpent(db, row, after, outcome)
    else if row.expiresAt <= db.now then after == db && outcome == Expired
    else
      && outcome == Rotated(id, newId, row.familyId, newHash)
      && after == db.(rows := db.rows
           [newId := Row(row.userId, newHash, row.familyId, db.now + db.ttl, None, None)]
           [id := row.(revokedAt := Some(db.now), replacedById := Some(newId))])
  }

  /**
   * What a logout leaves: the family its access token names ends; without one, the
   * family of the presented refresh token; with neither, nothing changes.
   */
  ghost predicate LoggedOff(before: map<RowId, Row>, after: map<RowId, Row>, fid: Option<Family>, token: Option<Hash>,
                            now: int)
  {
    && (fid.Some? ==> FamilyEnded(before, after, fid.value, now))
    && (fid.None? ==> forall id :: id in before && token == Some(before[id].tokenHash) ==>
          FamilyEnded(before, after, before[id].familyId, now))
    && (fid.None? && (forall id :: id in before ==> token != Some(before[id].tokenHash)) ==> after == before)
  }

  lemma EvolvesFromItself(rows: map<RowId, Row>)
    ensures Evolves(rows, rows)
  {
  }

  lemma OneEnding(before: map<RowId, Row>, a: map<RowId, Row>, b: map<RowId, Row>, family: Family, now: int)
    requires FamilyEnded(before, a, family, now) && FamilyEnded(before, b, family, now)
    ensures a == b
  {
  }

  /** `refreshFromRevoked`, run to its end. */
  lemma SpentAlone(db: Db, record: Snapshot, newId: RowId, newHash: Hash)
    requires RowsOk(db) && Current(db.rows, record) && record.row.revokedAt.Some?
    ensures
      var (after, outcome) := Finish(db, Spent(record), newId, newHash);
      AnsweredSpent(db, record.row, after, outcome)
  {
    FinishStep(db, Spent(record), newId, newHash);
    FinishStep(db, Killing(record.row.familyId), newId, newHash);
    if record.row.replacedById.Some? {
      var next := record.row.replacedById.value;
      LinksFormAChain(db.rows, record.id, record.id);
      FinishStep(db, Fetching(record, next), newId, newHash);
      FinishStep(db, Fetched(record, FindById(db.rows, next)), newId, newHash);
    }
  }

  lemma PresentedAlone(db: Db, hash: Hash, newId: RowId, newHash: Hash)
    ensures
      var found := FindByHash(db.rows, hash);
      Finish(db, Presented(hash), newId, newHash) ==
      if found.None? then (db, Invalid)
      else Finish(db, Advance(db, Loaded(found), newId, newHash).1, newId, newHash)
  {
    FinishStep(db, Presented(hash), newId, newHash);
    FinishStep(db, Loaded(FindByHash(db.rows, hash)), newId, newHash);
  }

  datatype Account = Account(passwordHash: Hash, emailVerifiedAt: Option<int>)

  /** A verification token of the password-reset purpose. */
  datatype ResetToken = ResetToken(userId: UserId, expiresAt: int, consumedAt: Option<int>)

  datatype ResetError = WeakPassword | TokenInvalid | TokenExpired

  /** Why a reset is refused, in the order the checks are made. */
  function ResetRefusal(tokens: map<Hash, ResetToken>, tokenHash: Hash, common: bool, now: int): Option<ResetError> {
    if common then Some(WeakPassword)
    else if tokenHash !in tokens || tokens[tokenHash].consumedAt.Some? then Some(TokenInvalid)
    else if tokens[tokenHash].expiresAt <= now then Some(TokenExpired)
    else None
  }

  /** A reset that reads a consumed link is refused, whatever the clock says. */
  lemma ConsumedLinkIsRefused(tokens: map<Hash, ResetToken>, tokenHash: Hash, common: bool, now: int)
    requires tokenHash in tokens && tokens[tokenHash].consumedAt.Some?
    ensures ResetRefusal(tokens, tokenHash, common, now) == Some(if common then WeakPassword else TokenInvalid)
  {
  }

  class Service {
    var rows: map<RowId, Row>
    var accounts: map<UserId, Account>
    var resetTokens: map<Hash, ResetToken>
    var now: int
    const ttl: int

    constructor (ttl: int, now: int)
      ensures rows == map[] && accounts == map[] && resetTokens == map[] && this.now == now && this.ttl == ttl
    {
      this.ttl := ttl;
      this.now := now;
      rows, accounts, resetTokens := map[], map[], map[];
    }

    ghost function Db(): Db
      reads this
    {
      RefreshTokens.Db.Db(rows, now, ttl)
    }

    // ---- auth.repository ----

    method FindRefreshTokenByHash(hash: Hash) returns (found: Option<Snapshot>)
      requires HashesUnique(rows)
      ensures found == FindByHash(rows, hash)
    {
      if id :| id in rows && rows[id].tokenHash == hash {
        found := Some(Snapshot(id, rows[id]));
      } else {
        found := None;
      }
    }

    method ClaimRefreshToken(id: RowId) returns (count: nat)
      modifies this`rows
      ensures count == if Live(old(rows), id) then 1 else 0
      ensures rows == if Live(old(rows), id) then old(rows)[id := Stamp(old(rows[id]), now)] else old(rows)
    {
      if id in rows && rows[id].revokedAt.None? {
        rows := rows[id := rows[id].(revokedAt := Some(now))];
        count := 1;
      } else {
        count := 0;
      }
    }

    method CreateRefreshToken(id: RowId, user: UserId, hash: Hash, family: Family)
      requires id !in rows
      modifies this`rows
      ensures rows == old(rows)[id := Row(user, hash, family, now + ttl, None, None)]
    {
      rows := rows[id := Row(user, hash, family, now + ttl, None, None)];
    }

    method SetRefreshTokenSuccessor(id: RowId, successor: RowId)
      requires id in rows
      modifies this`rows
      ensures rows == old(rows)[id := old(rows[id]).(replacedById := Some(successor))]
    {
      rows := rows[id := rows[id].(replacedById := Some(successor))];
    }

    method RevokeRefreshTokenFamily(family: Family)
      modifies this`rows
      ensures rows == RevokeFamily(old(rows), family, now)
      ensures FamilyEnded(old(rows), rows, family, now)
      ensures Issued(old(rows), family) ==> Dead(rows, family)
    {
      if Issued(rows, family) {
        RevokeFamilyKills(rows, family, now);
      }
      rows := map id | id in rows ::
        if rows[id].familyId == family && rows[id].revokedAt.None?
        then rows[id].(revokedAt := Some(now)) else rows[id];
    }

    method RevokeAllUserRefreshTokens(user: UserId)
      modifies this`rows
      ensures rows == RevokeUser(old(rows), user, now)
      ensures UserEnded(old(rows), rows, user, now)
      ensures OneOwnerEach(old(rows)) ==>
                forall id :: id in old(rows) && old(rows)[id].userId == user ==> Dead(rows, old(rows)[id].familyId)
    {
      if OneOwnerEach(rows) {
        forall id | id in rows && rows[id].userId == user
          ensures Dead(RevokeUser(rows, user, now), rows[id].familyId)
        {
          RevokeUserKills(rows, user, id, now);
        }
      }
      rows := map id | id in rows ::
        if rows[id].userId == user && rows[id].revokedAt.None?
        then rows[id].(revokedAt := Some(now)) else rows[id];
    }

    // ---- auth.service ----

    method IssueSession(user: UserId, id: RowId, hash: Hash, family: Family)
      requires RowsOk(Db()) && id !in rows && FreshHash(rows, hash) && !Issued(rows, family)
      modifies this`rows
      ensures Db() == SignedIn(old(Db()), user, id, hash, family) && RowsOk(Db())
      ensures rows == old(rows)[id := Row(user, hash, family, now + ttl, None, None)]
    {
      SignInKeepsRowsOk(Db(), user, id, hash, family);
      CreateRefreshToken(id, user, hash, family);
    }

    /** The rotation transaction. */
    method RotateInTransaction(record: Snapshot, newId: RowId, newHash: Hash) returns (rotated: bool)
      requires RowsOk(Db()) && Current(rows, record) && newId !in rows && FreshHash(rows, newHash)
      modifies this`rows
      ensures (Db(), rotated) == Rotate(old(Db()), record, newId, newHash) && RowsOk(Db())
      ensures rotated <==> old(rows)[record.id].revokedAt.None?
      ensures rows == if !rotated then old(rows) else old(rows)
        [newId := Row(record.row.userId, newHash, record.row.familyId, now + ttl, None, None)]
        [record.id := old(rows)[record.id].(revokedAt := Some(now), replacedById := Some(newId))]
    {
      RotateKeepsRowsOk(Db(), record, newId, newHash);
      var count := ClaimRefreshToken(record.id);
      if count == 0 {
        return false;
      }
      CreateRefreshToken(newId, record.row.userId, newHash, record.row.familyId);
      SetRefreshTokenSuccessor(record.id, newId);
      return true;
    }

    method Refresh(token: Option<Hash>, newId: RowId, newHash: Hash) returns (outcome: Outcome)
      requires RowsOk(Db()) && newId !in rows && FreshHash(rows, newHash)
      modifies this`rows
      ensures (Db(), outcome) == Finish(old(Db()), RefreshStart(token), newId, newHash)
      ensures RowsOk(Db()) && Evolves(old(rows), rows)
      ensures forall id :: id in old(rows) && token == Some(old(rows)[id].tokenHash) ==>
                AnsweredRefresh(old(Db()), id, Db(), outcome, newId, newHash)
      ensures (forall id :: id in old(rows) ==> token != Some(old(rows)[id].tokenHash)) ==>
                rows == old(rows) && outcome == Invalid
    {
      ghost var before := Db();
      RefreshAlone(before, token, newId, newHash);
      if token.None? {
        return Invalid;
      }
      var found := FindRefreshTokenByHash(token.value);
      PresentedAlone(before, token.value, newId, newHash);
      if found.None? {
        return Invalid;
      }
      var record := found.value;
      if record.row.revokedAt.Some? {
        outcome := RefreshFromRevoked(record, newId, newHash);
        return;
      }
      if record.row.expiresAt <= now {
        return Expired;
      }
      RotateKeepsRowsOk(before, record, newId, newHash);
      FinishStep(before, Claiming(record), newId, newHash);
      var rotated := RotateInTransaction(record, newId, newHash);
      // Alone, a row read as live is still live here. The path of a request that
      // loses the claim needs a second request: it is the machine's `Lost` step.
      assert rotated;
      return Rotated(record.id, newId, record.row.familyId, newHash);
    }

    method RefreshFromRevoked(record: Snapshot, ghost newId: RowId, ghost newHash: Hash) returns (outcome: Outcome)
      requires RowsOk(Db()) && Current(rows, record) && record.row.revokedAt.Some?
      modifies this`rows
      ensures (Db(), outcome) == Finish(old(Db()), Spent(record), newId, newHash)
      ensures RowsOk(Db()) && Evolves(old(rows), rows)
      ensures AnsweredSpent(old(Db()), record.row, Db(), outcome)
    {
      hide Finish, Evolves;
      SpentAlone(Db(), record, newId, newHash);
      ghost var end := Finish(Db(), Spent(record), newId, newHash).0;
      EvolvesFromItself(rows);
      var withinGrace := now - record.row.revokedAt.value <= REFRESH_GRACE_MS;
      if withinGrace && record.row.replacedById.Some? {
        LinksFormAChain(rows, record.id, record.id);
        var replacement := FindById(rows, record.row.replacedById.value);
        if replacement.Some? && replacement.value.revokedAt.None? {
          return Replayed(replacement.value.familyId);
        }
      }
      ghost var before := Db();
      RevokeRefreshTokenFamily(record.row.familyId);
      StampsKeepRowsOk(before, Db());
      OneEnding(before.rows, rows, end.rows, record.row.familyId, now);
      return Reused(record.row.familyId);
    }

    method Logout(fid: Option<Family>, token: Option<Hash>)
      requires RowsOk(Db())
      modifies this`rows
      ensures (Db(), LoggedOut) == Finish(old(Db()), LogoutStart(fid, token), 0, 0)
      ensures RowsOk(Db())
      ensures LoggedOff(old(rows), rows, fid, token, now)
      ensures fid.Some? && Issued(old(rows), fid.value) ==> Dead(rows, fid.value)
      ensures fid.None? ==> forall id :: id in old(rows) && token == Some(old(rows)[id].tokenHash) ==>
                Dead(rows, old(rows)[id].familyId)
    {
      ghost var before := Db();
      if token.Some? {
        FinishStep(before, LogoutPresented(token.value), 0, 0);
      }
      if fid.Some? {
        RevokeRefreshTokenFamily(fid.value);
        StampsKeepRowsOk(before, Db());
        return;
      }
      if token.None? {
        return;
      }
      var record := FindRefreshTokenByHash(token.value);
      if record.None? {
        return;
      }
      RevokeRefreshTokenFamily(record.value.row.familyId);
      StampsKeepRowsOk(before, Db());
    }

    /**
     * A refused reset changes nothing. Any other lands as a whole: the new hash, a
     * verified address, the consumed token, and every session of the user dead.
     */
    method ResetPassword(tokenHash: Hash, common: bool, passwordHash: Hash) returns (refused: Option<ResetError>)
      requires RowsOk(Db())
      requires forall t :: t in resetTokens ==> resetTokens[t].userId in accounts
      modifies this`rows, this`accounts, this`resetTokens
      ensures refused == ResetRefusal(old(resetTokens), tokenHash, common, now) && RowsOk(Db())
      ensures refused == Some(WeakPassword) <==> common
      ensures refused == Some(TokenInvalid) <==>
                !common && (tokenHash !in old(resetTokens) || old(resetTokens)[tokenHash].consumedAt.Some?)
      ensures refused == Some(TokenExpired) <==>
                && !common && tokenHash in old(resetTokens) && old(resetTokens)[tokenHash].consumedAt.None?
                && old(resetTokens)[tokenHash].expiresAt <= now
      ensures refused.Some? ==> rows == old(rows) && accounts == old(accounts) && resetTokens == old(resetTokens)
      ensures refused.None? ==>
        && tokenHash in old(resetTokens) && old(resetTokens)[tokenHash].userId in old(accounts)
        && var token := old(resetTokens)[tokenHash];
           var account := old(accounts)[token.userId];
        && var verified := if account.emailVerifiedAt.Some? then account.emailVerifiedAt else Some(now);
        && accounts == old(accounts)[token.userId := Account(passwordHash, verified)]
        && resetTokens == old(resetTokens)[tokenHash := token.(consumedAt := Some(now))]
        && UserEnded(old(rows), rows, token.userId, now)
        && (forall id :: id in old(rows) && old(rows)[id].userId == token.userId ==>
              Dead(rows, old(rows)[id].familyId))
    {
      if common {
        return Some(WeakPassword);
      }
      if tokenHash !in resetTokens || resetTokens[tokenHash].consumedAt.Some? {
        return Some(TokenInvalid);
      }
      var record := resetTokens[tokenHash];
      if record.expiresAt <= now {
        return Some(TokenExpired);
      }
      ghost var before := Db();
      var account := accounts[record.userId];
      var verified := if account.emailVerifiedAt.Some? then account.emailVerifiedAt else Some(now);
      accounts := accounts[record.userId := Account(passwordHash, verified)];
      resetTokens := resetTokens[tokenHash := record.(consumedAt := Some(now))];
      RevokeAllUserRefreshTokens(record.userId);
      StampsKeepRowsOk(before, Db());
      refused := None;
    }
  }

  /** What a refresh answers, and does, when nothing interleaves with it. */
  lemma RefreshAlone(db: Db, token: Option<Hash>, newId: RowId, newHash: Hash)
    requires RowsOk(db) && newId !in db.rows && FreshHash(db.rows, newHash)
    ensures
      var (after, outcome) := Finish(db, RefreshStart(token), newId, newHash);
      && (forall id :: id in db.rows && token == Some(db.rows[id].tokenHash) ==>
            AnsweredRefresh(db, id, after, outcome, newId, newHash))
      && ((forall id :: id in db.rows ==> token != Some(db.rows[id].tokenHash)) ==> after == db && outcome == Invalid)
  {
    if token.Some? {
      PresentedAlone(db, token.value, newId, newHash);
      FindByHashFinds(db, token.value);
      var found := FindByHash(db.rows, token.value);
      if found.Some? {
        KnownAlone(db, found.value, newId, newHash);
      }
    }
  }

  lemma KnownAlone(db: Db, record: Snapshot, newId: RowId, newHash: Hash)
    requires RowsOk(db) && newId !in db.rows && FreshHash(db.rows, newHash)
    requires record.id in db.rows && record.row == db.rows[record.id]
    ensures
      var (after, outcome) := Finish(db, Advance(db, Loaded(Some(record)), newId, newHash).1, newId, newHash);
      AnsweredRefresh(db, record.id, after, outcome, newId, newHash)
  {
    if record.row.revokedAt.Some? {
      SpentAlone(db, record, newId, newHash);
    } else if record.row.expiresAt > db.now {
      FinishStep(db, Claiming(record), newId, newHash);
    }
  }

  /** A logout that nothing interleaves with. */
  lemma LogoutAlone(db: Db, fid: Option<Family>, token: Option<Hash>, newId: RowId, newHash: Hash)
    requires RowsOk(db)
    ensures
      var (after, outcome) := Finish(db, LogoutStart(fid, token), newId, newHash);
      && outcome == LoggedOut && after == db.(rows := after.rows)
      && LoggedOff(db.rows, after.rows, fid, token, db.now)
  {
    if fid.Some? {
      FinishStep(db, Ending(fid.value), newId, newHash);
    } else if token.Some? {
      FindByHashFinds(db, token.value);
      FinishStep(db, LogoutPresented(token.value), newId, newHash);
      var found := FindByHash(db.rows, token.value);
      if found.Some? {
        FinishStep(db, Ending(found.value.row.familyId), newId, newHash);
      }
    }
  }

  // ---- A logout among other requests ----

  /** What a logout of this family still has to do, or has done. */
  ghost predicate LoggingOut(s: State, r: RequestId, family: Family, hash: Option<Hash>) {
    && r in s.requests
    && (|| s.requests[r] == Ending(family)
        || (s.requests[r] == Done(LoggedOut) && Dead(s.db.rows, family))
        || (hash.Some? && s.requests[r] == LogoutPresented(hash.value)
            && exists id :: id in s.db.rows && s.db.rows[id].tokenHash == hash.value && s.db.rows[id].familyId == family))
  }

  lemma LogoutStep(s: State, e: Event, r: RequestId, family: Family, hash: Option<Hash>)
    requires Inv(s) && Enabled(s, e) && LoggingOut(s, r, family, hash)
    ensures LoggingOut(Next(s, e), r, family, hash)
  {
    NextKeeps(s, e);
    var s' := Next(s, e);
    if Dead(s.db.rows, family) {
      DeadStaysDead(s.db.rows, s'.db.rows, family);
    }
    if s.requests[r].LogoutPresented? {
      var id :| id in s.db.rows && s.db.rows[id].tokenHash == hash.value && s.db.rows[id].familyId == family;
      assert id in s'.db.rows && SameIdentity(s.db.rows[id], s'.db.rows[id]);
      FindByHashFinds(s.db, hash.value);
    } else if s.requests[r] == Ending(family) {
      assert PhaseOk(s.db.rows, s.requests[r]);
      RevokeFamilyKills(s.db.rows, family, s.db.now);
    }
  }

  lemma {:induction false} LogoutRun(s: State, events: seq<Event>, r: RequestId, family: Family, hash: Option<Hash>)
    requires Inv(s) && IsRun(s, events) && LoggingOut(s, r, family, hash)
    ensures LoggingOut(After(s, events), r, family, hash)
    decreases |events|
  {
    hide Inv, LoggingOut, Enabled, Next;
    if events != [] {
      NextKeeps(s, events[0]);
      LogoutStep(s, events[0], r, family, hash);
      LogoutRun(Next(s, events[0]), events[1..], r, family, hash);
    }
  }

  /**
   * However it interleaves, a logout that has answered has ended its family: the
   * one its access token names, or else the one of the refresh token it presents.
   */
  lemma AnsweredLogoutHasEnded(s: State, events: seq<Event>, r: RequestId, fid: Option<Family>, token: Option<Hash>,
                               family: Family)
    requires Inv(s) && Enabled(s, Call(r, LogoutStart(fid, token)))
    requires IsRun(Next(s, Call(r, LogoutStart(fid, token))), events)
    requires fid == Some(family)
             || (fid.None? && exists id :: id in s.db.rows && token == Some(s.db.rows[id].tokenHash)
                                           && s.db.rows[id].familyId == family)
    ensures
      var end := After(Next(s, Call(r, LogoutStart(fid, token))), events);
      r in end.requests && (end.requests[r].Done? ==> end.requests[r].outcome == LoggedOut && Dead(end.db.rows, family))
  {
    var begun := Next(s, Call(r, LogoutStart(fid, token)));
    NextKeeps(s, Call(r, LogoutStart(fid, token)));
    LogoutRun(begun, events, r, family, token);
  }
}
