/**
 * The tab race: any number of requests present the same live token, from the start
 * or at any time later, in any interleaving with each other and with traffic that
 * leaves the family alone.
 */
module RefreshRace {
  import opened Prelude
  import opened RefreshTokens
  import opened RefreshSafety

  /** The token being raced for, and the requests that present it. */
  datatype Race = Race(id: RowId, hash: Hash, family: Family, expiresAt: int, racers: set<RequestId>)

  ghost predicate FamilyUntouched(rows: map<RowId, Row>, rows': map<RowId, Row>, family: Family) {
    && (forall id :: id in rows && rows[id].familyId == family ==> id in rows' && rows'[id] == rows[id])
    && (forall id :: id in rows' && rows'[id].familyId == family ==> id in rows)
  }

  /** A racer's own step, or one that leaves the family's rows as they are; a racer that arrives presents the token. */
  ghost predicate Fair(race: Race, s: State, e: Event) {
    || (e.Step? && e.request in race.racers)
    || (&& FamilyUntouched(s.db.rows, Next(s, e).db.rows, race.family)
        && (e.Call? && e.request in race.racers ==> e.phase == Presented(race.hash)))
  }

  /** Nobody but the racers spends or revokes a token of the family. */
  ghost predicate OnlyRacersTouch(race: Race, s: State, events: seq<Event>)
    decreases |events|
  {
    events == [] || (Fair(race, s, events[0]) && OnlyRacersTouch(race, Next(s, events[0]), events[1..]))
  }

  /** The token has not expired, and no more than ten seconds have passed since it was claimed, if it was. */
  ghost predicate Timely(race: Race, s: State) {
    && race.id in s.db.rows
    && s.db.now < race.expiresAt
    && (s.db.rows[race.id].revokedAt.Some? ==> s.db.now - s.db.rows[race.id].revokedAt.value <= 10_000)
  }

  ghost predicate Raced(race: Race, s: State) {
    && Inv(s)
    && race.id in s.db.rows && s.db.rows[race.id].tokenHash == race.hash
    && s.db.rows[race.id].familyId == race.family && s.db.rows[race.id].expiresAt == race.expiresAt
  }

  /** Nobody has claimed the token yet. */
  ghost predicate Unclaimed(race: Race, s: State) {
    && Live(s.db.rows, race.id)
    && forall r :: r in race.racers && r in s.requests ==> WaitsOn(race, s.requests[r])
  }

  ghost predicate WaitsOn(race: Race, phase: Phase) {
    match phase
    case Presented(hash) => hash == race.hash
    case Loaded(found) => found.Some? && found.value.id == race.id
    case Claiming(record) => record.id == race.id
    case _ => false
  }

  /** `winner` claimed the token; everyone else is on the way to a replay of its session, or has had it. */
  ghost predicate Claimed(race: Race, s: State, winner: RequestId, successor: RowId) {
    && winner in race.racers && winner in s.requests
    && race.id in s.db.rows && s.db.rows[race.id].revokedAt.Some? && s.db.rows[race.id].replacedById == Some(successor)
    && Live(s.db.rows, successor) && s.db.rows[successor].familyId == race.family
    && s.requests[winner] == Done(Rotated(race.id, successor, race.family, s.db.rows[successor].tokenHash))
    && forall r :: r in race.racers && r in s.requests && r != winner ==> Follower(race, s.requests[r], successor)
  }

  ghost predicate Follower(race: Race, phase: Phase, successor: RowId) {
    || WaitsOn(race, phase)
    || (phase.Lost? && phase.record.id == race.id)
    || (phase.Spent? && phase.record.id == race.id)
    || (phase.Fetching? && phase.record.id == race.id && phase.next == successor)
    || (phase.Fetched? && phase.record.id == race.id && phase.replacement.Some?
        && phase.replacement.value.revokedAt.None?)
    || phase == Done(Replayed(race.family))
  }

  ghost predicate OnCourse(race: Race, s: State) {
    && Raced(race, s)
    && (Unclaimed(race, s) || exists winner, successor :: Claimed(race, s, winner, successor))
  }

  lemma UnclaimedStep(race: Race, s: State, e: Event)
    requires Raced(race, s) && Unclaimed(race, s) && Enabled(s, e) && Timely(race, s)
    requires e.Step? && e.request in race.racers
    ensures Raced(race, Next(s, e))
    ensures Unclaimed(race, Next(s, e)) || exists winner, successor :: Claimed(race, Next(s, e), winner, successor)
  {
    NextKeeps(s, e);
    var phase := s.requests[e.request];
    assert PhaseOk(s.db.rows, phase);
    if phase.Presented? {
      FindByHashFinds(s.db, race.hash);
    } else if phase.Claiming? {
      assert Claimed(race, Next(s, e), e.request, e.newId);
    }
  }

  lemma FollowerStep(race: Race, s: State, e: Event, winner: RequestId, successor: RowId)
    requires Raced(race, s) && Claimed(race, s, winner, successor) && Enabled(s, e) && Timely(race, s)
    requires e.Step? && e.request in race.racers && e.request != winner
    ensures Next(s, e).db == s.db
    ensures Follower(race, Next(s, e).requests[e.request], successor)
  {
    var phase := s.requests[e.request];
    assert PhaseOk(s.db.rows, phase);
    FindByHashFinds(s.db, race.hash);
  }

  lemma ClaimedStep(race: Race, s: State, e: Event, winner: RequestId, successor: RowId)
    requires Raced(race, s) && Claimed(race, s, winner, successor) && Enabled(s, e) && Timely(race, s)
    requires Fair(race, s, e)
    ensures Raced(race, Next(s, e)) && Claimed(race, Next(s, e), winner, successor)
  {
    NextKeeps(s, e);
    var s' := Next(s, e);
    if e.Step? && e.request in race.racers {
      if e.request != winner {
        FollowerStep(race, s, e, winner, successor);
      }
      assert s'.db == s.db;
    } else {
      assert race.id in s'.db.rows && s'.db.rows[race.id] == s.db.rows[race.id];
      assert forall r :: r in race.racers && r in s.requests ==> s'.requests[r] == s.requests[r];
    }
  }

  lemma OnCourseStep(race: Race, s: State, e: Event)
    requires OnCourse(race, s) && Enabled(s, e) && Timely(race, s)
    requires Fair(race, s, e)
    ensures OnCourse(race, Next(s, e))
  {
    if Unclaimed(race, s) {
      if e.Step? && e.request in race.racers {
        UnclaimedStep(race, s, e);
      } else {
        NextKeeps(s, e);
        assert race.id in Next(s, e).db.rows;
        assert forall r :: r in race.racers && r in s.requests ==> Next(s, e).requests[r] == s.requests[r];
      }
    } else {
      var winner, successor :| Claimed(race, s, winner, successor);
      ClaimedStep(race, s, e, winner, successor);
    }
  }

  lemma {:induction false} ClockMovesForward(s: State, events: seq<Event>)
    requires IsRun(s, events)
    ensures s.db.now <= After(s, events).db.now
    decreases |events|
  {
    if events != [] {
      ClockMovesForward(Next(s, events[0]), events[1..]);
    }
  }

  /** Being on time at the end means having been on time all along. */
  lemma TimelyBefore(race: Race, s: State, events: seq<Event>)
    requires Raced(race, s) && IsRun(s, events) && Timely(race, After(s, events))
    ensures Timely(race, s)
  {
    ClockMovesForward(s, events);
    if s.db.rows[race.id].revokedAt.Some? {
      RevokedRowsAreFrozen(s, events, race.id);
    }
  }

  lemma {:induction false} StaysOnCourse(race: Race, s: State, events: seq<Event>)
    requires OnCourse(race, s) && IsRun(s, events) && OnlyRacersTouch(race, s, events)
    requires Timely(race, After(s, events))
    ensures OnCourse(race, After(s, events))
    decreases |events|
  {
    if events != [] {
      TimelyBefore(race, s, events);
      OnCourseStep(race, s, events[0]);
      StaysOnCourse(race, Next(s, events[0]), events[1..]);
    }
  }

  /**
   * However many requests present one live token, whenever they arrive and however
   * they interleave: when all have answered, exactly one rotated it, every other one was answered
   * with the winner's session and no refresh token, and the family has exactly one live row.
   */
  lemma OneWinsTheOthersReplay(race: Race, s: State, events: seq<Event>) returns (winner: RequestId, successor: RowId)
    requires Raced(race, s) && Live(s.db.rows, race.id)
    requires race.racers != {}
    requires forall r :: r in race.racers && r in s.requests ==> s.requests[r] == Presented(race.hash)
    requires IsRun(s, events) && OnlyRacersTouch(race, s, events) && Timely(race, After(s, events))
    requires forall r :: r in race.racers ==>
               r in After(s, events).requests && After(s, events).requests[r].Done?
    ensures
      var end := After(s, events);
      && winner in race.racers && successor in end.db.rows
      && end.requests[winner] == Done(Rotated(race.id, successor, race.family, end.db.rows[successor].tokenHash))
      && (forall r :: r in race.racers && r != winner ==>
            r in end.requests && end.requests[r] == Done(Replayed(race.family)))
      && (forall id :: id in end.db.rows && end.db.rows[id].familyId == race.family ==>
            (Live(end.db.rows, id) <==> id == successor))
  {
    StaysOnCourse(race, s, events);
    var end := After(s, events);
    var someone :| someone in race.racers;
    assert !WaitsOn(race, end.requests[someone]);
    winner, successor :| Claimed(race, end, winner, successor);
    assert Issued(end.db.rows, race.family);
    var tail := OneTail(end.db.rows, race.family);
    assert tail == successor;
    forall r | r in race.racers && r != winner
      ensures end.requests[r] == Done(Replayed(race.family))
    {
      assert Follower(race, end.requests[r], successor);
    }
  }
}
