/**
 * What every interleaving of sign-ins, refreshes, replays, logouts and password
 * resets keeps: each family is one chain, a stamp is final, a dead family stays dead.
 */
module RefreshSafety {
  import opened Prelude
  import opened RefreshTokens

  // ---- The invariant ----

  /** `chain` lists the family's rows from the sign-in on, each spent row linked to the next. */
  ghost predicate IsChain(rows: map<RowId, Row>, family: Family, chain: seq<RowId>) {
    && |chain| > 0
    && Distinct(chain)
    && (forall i :: 0 <= i < |chain| ==> chain[i] in rows && rows[chain[i]].familyId == family)
    && (forall id :: id in rows && rows[id].familyId == family ==> id in chain)
    && (forall i, j {:trigger chain[i], chain[j]} :: 0 <= i < j < |chain| && j == i + 1 ==>
          rows[chain[i]].replacedById == Some(chain[j]) && rows[chain[i]].revokedAt.Some?)
    && rows[chain[|chain| - 1]].replacedById == None
  }

  ghost predicate HasChain(rows: map<RowId, Row>, family: Family) {
    exists chain :: IsChain(rows, family, chain)
  }

  ghost predicate Chained(rows: map<RowId, Row>) {
    forall family :: Issued(rows, family) ==> HasChain(rows, family)
  }

  ghost predicate HashesUnique(rows: map<RowId, Row>) {
    forall a, b :: a in rows && b in rows && rows[a].tokenHash == rows[b].tokenHash ==> a == b
  }

  ghost predicate OneOwnerEach(rows: map<RowId, Row>) {
    forall a, b :: a in rows && b in rows && rows[a].familyId == rows[b].familyId ==> rows[a].userId == rows[b].userId
  }

  ghost predicate StampsInThePast(db: Db) {
    forall id :: id in db.rows && db.rows[id].revokedAt.Some? ==> db.rows[id].revokedAt.value <= db.now
  }

  ghost predicate RowsOk(db: Db) {
    Chained(db.rows) && HashesUnique(db.rows) && OneOwnerEach(db.rows) && StampsInThePast(db)
  }

  ghost predicate SameIdentity(a: Row, b: Row) {
    a.userId == b.userId && a.tokenHash == b.tokenHash && a.familyId == b.familyId && a.expiresAt == b.expiresAt
  }

  /** `after` is `before` later: a revoked row is frozen, and a row that is still live never changed. */
  ghost predicate Follows(before: Row, after: Row) {
    && SameIdentity(before, after)
    && (before.revokedAt.Some? || after.revokedAt.None? ==> after == before)
  }

  ghost predicate Current(rows: map<RowId, Row>, copy: Snapshot) {
    copy.id in rows && Follows(copy.row, rows[copy.id])
  }

  ghost predicate Dead(rows: map<RowId, Row>, family: Family) {
    Issued(rows, family) && forall id :: id in rows && rows[id].familyId == family ==> rows[id].revokedAt.Some?
  }

  ghost predicate PhaseOk(rows: map<RowId, Row>, phase: Phase) {
    match phase
    case Presented(_) => true
    case Loaded(found) => found.Some? ==> Current(rows, found.value)
    case Claiming(record) => Current(rows, record) && record.row.revokedAt.None?
    case Lost(record) => Current(rows, record) && rows[record.id].revokedAt.Some?
    case Spent(record) => Current(rows, record) && record.row.revokedAt.Some?
    case Fetching(record, next) =>
      Current(rows, record) && record.row.revokedAt.Some? && record.row.replacedById == Some(next)
    case Fetched(record, replacement) =>
      && Current(rows, record) && record.row.revokedAt.Some? && record.row.replacedById.Some?
      && replacement.Some? && Current(rows, Snapshot(record.row.replacedById.value, replacement.value))
      && replacement.value.familyId == record.row.familyId
    case Killing(family) => Issued(rows, family)
    case LogoutPresented(_) => true
    case Ending(family) => Issued(rows, family)
    case Done(outcome) => OutcomeOk(rows, outcome)
  }

  /** What a finished request's answer says about the table, for ever after. */
  ghost predicate OutcomeOk(rows: map<RowId, Row>, outcome: Outcome) {
    match outcome
    case Rotated(from, to, family, hash) =>
      && from in rows && rows[from].familyId == family && rows[from].replacedById == Some(to)
      && rows[from].revokedAt.Some?
      && to in rows && rows[to].familyId == family && rows[to].tokenHash == hash
    case Replayed(family) => Issued(rows, family)
    case Reused(family) => Dead(rows, family)
    case Crashed => false
    case _ => true
  }

  ghost predicate Rotates(s: State, r: RequestId) {
    r in s.requests && s.requests[r].Done? && s.requests[r].outcome.Rotated?
  }

  ghost predicate Inv(s: State) {
    && RowsOk(s.db)
    && (forall r :: r in s.requests ==> PhaseOk(s.db.rows, s.requests[r]))
    && (forall r, q :: Rotates(s, r) && Rotates(s, q) && r != q ==>
          s.requests[r].outcome.from != s.requests[q].outcome.from)
  }

  /** What one step may do to the table: rows stay and follow themselves; a new row opens a family or extends a live one. */
  ghost predicate Evolves(rows: map<RowId, Row>, rows': map<RowId, Row>) {
    && (forall id :: id in rows ==> id in rows' && Follows(rows[id], rows'[id]))
    && (forall id :: id in rows' && id !in rows && Issued(rows, rows'[id].familyId) ==>
          exists parent :: Live(rows, parent) && rows[parent].familyId == rows'[id].familyId)
  }

  // ---- Chains ----

  lemma ChainOf(rows: map<RowId, Row>, id: RowId) returns (chain: seq<RowId>, at: nat)
    requires Chained(rows) && id in rows
    ensures IsChain(rows, rows[id].familyId, chain) && at < |chain| && chain[at] == id
    ensures rows[id].revokedAt.None? ==> at == |chain| - 1
  {
    assert Issued(rows, rows[id].familyId);
    chain :| IsChain(rows, rows[id].familyId, chain);
    at :| 0 <= at < |chain| && chain[at] == id;
    if at + 1 < |chain| {
      assert rows[chain[at]].replacedById == Some(chain[at + 1]);
    }
  }

  /** `replacedById` is injective, stays in the family, and marks a spent row. */
  lemma LinksFormAChain(rows: map<RowId, Row>, a: RowId, b: RowId)
    requires Chained(rows) && a in rows && b in rows && rows[a].replacedById.Some?
    ensures rows[a].revokedAt.Some?
    ensures rows[a].replacedById.value in rows
    ensures rows[rows[a].replacedById.value].familyId == rows[a].familyId
    ensures rows[a].replacedById == rows[b].replacedById ==> a == b
  {
    var chain, i := ChainOf(rows, a);
    var next := chain[i + 1];
    assert rows[a].replacedById == Some(next);
    if rows[a].replacedById == rows[b].replacedById {
      var other, j := ChainOf(rows, b);
      assert rows[b].replacedById == Some(other[j + 1]);
      var k :| 0 <= k < |chain| && chain[k] == b;
      assert rows[b].replacedById == Some(chain[k + 1]);
    }
  }

  /** A family has exactly one row without a successor, and only that row can be live. */
  lemma OneTail(rows: map<RowId, Row>, family: Family) returns (tail: RowId)
    requires Chained(rows) && Issued(rows, family)
    ensures tail in rows && rows[tail].familyId == family && rows[tail].replacedById.None?
    ensures forall id :: id in rows && rows[id].familyId == family && id != tail ==>
              rows[id].replacedById.Some? && rows[id].revokedAt.Some?
  {
    var chain :| IsChain(rows, family, chain);
    tail := chain[|chain| - 1];
    forall id | id in rows && rows[id].familyId == family && id != tail
      ensures rows[id].replacedById.Some? && rows[id].revokedAt.Some?
    {
      var i :| 0 <= i < |chain| && chain[i] == id;
      assert rows[chain[i]].replacedById == Some(chain[i + 1]);
    }
  }

  /** Walking a family's links from its first row visits every row of it: the chain is acyclic and complete. */
  lemma ChainsAreLinear(rows: map<RowId, Row>, family: Family) returns (chain: seq<RowId>)
    requires Chained(rows) && Issued(rows, family)
    ensures Distinct(chain)
    ensures forall id :: id in chain <==> id in rows && rows[id].familyId == family
    ensures forall i, j :: 0 <= i < |chain| && 0 <= j < |chain| ==>
              (rows[chain[i]].replacedById == Some(chain[j]) <==> j == i + 1)
  {
    chain :| IsChain(rows, family, chain);
    forall i, j | 0 <= i < |chain| && 0 <= j < |chain|
      ensures rows[chain[i]].replacedById == Some(chain[j]) <==> j == i + 1
    {
      if i + 1 < |chain| {
        assert rows[chain[i]].replacedById == Some(chain[i + 1]);
      }
    }
  }

  ghost predicate Restamped(rows: map<RowId, Row>, rows': map<RowId, Row>, now: int) {
    && rows'.Keys == rows.Keys
    && forall id :: id in rows ==> rows'[id] == rows[id] || rows'[id] == Stamp(rows[id], now)
  }

  lemma StampsKeepChains(rows: map<RowId, Row>, rows': map<RowId, Row>, now: int)
    requires Chained(rows) && Restamped(rows, rows', now)
    ensures Chained(rows')
  {
    forall family | Issued(rows', family)
      ensures HasChain(rows', family)
    {
      var id :| id in rows' && rows'[id].familyId == family;
      var chain, _ := ChainOf(rows, id);
      StampsKeepChain(rows, rows', now, family, chain);
    }
  }

  lemma StampsKeepChain(rows: map<RowId, Row>, rows': map<RowId, Row>, now: int, family: Family, chain: seq<RowId>)
    requires IsChain(rows, family, chain) && Restamped(rows, rows', now)
    ensures IsChain(rows', family, chain)
  {
    forall id | id in rows' && rows'[id].familyId == family
      ensures id in chain
    {
      assert id in rows && rows[id].familyId == family;
    }
    forall i, j | 0 <= i < j < |chain| && j == i + 1
      ensures rows'[chain[i]].replacedById == Some(chain[j]) && rows'[chain[i]].revokedAt.Some?
    {
      assert chain[i] in rows && rows[chain[i]].replacedById == Some(chain[j]) && rows[chain[i]].revokedAt.Some?;
      assert rows'[chain[i]] == rows[chain[i]];
    }
    var last := chain[|chain| - 1];
    assert last in rows && rows'[last].replacedById == rows[last].replacedById;
  }

  /** Stamping rows, whichever they are, keeps the table in order. */
  lemma StampsKeepRowsOk(db: Db, db': Db)
    requires RowsOk(db) && db'.now == db.now && Restamped(db.rows, db'.rows, db.now)
    ensures RowsOk(db') && Evolves(db.rows, db'.rows)
  {
    StampsKeepChains(db.rows, db'.rows, db.now);
    assert forall id :: id in db'.rows ==> id in db.rows && SameIdentity(db'.rows[id], db.rows[id]);
  }

  /** A family none of whose rows changed keeps its chain. */
  lemma UntouchedChain(rows: map<RowId, Row>, rows': map<RowId, Row>, family: Family, chain: seq<RowId>)
    requires IsChain(rows, family, chain)
    requires forall id :: id in rows && rows[id].familyId == family ==> id in rows' && rows'[id] == rows[id]
    requires forall id :: id in rows' && rows'[id].familyId == family ==> id in rows && rows[id].familyId == family
    ensures IsChain(rows', family, chain)
  {
    forall i, j | 0 <= i < j < |chain| && j == i + 1
      ensures rows'[chain[i]].replacedById == Some(chain[j]) && rows'[chain[i]].revokedAt.Some?
    {
      assert rows[chain[i]].replacedById == Some(chain[j]);
    }
  }

  lemma SignInKeepsRowsOk(db: Db, user: UserId, id: RowId, hash: Hash, family: Family)
    requires RowsOk(db) && id !in db.rows && FreshHash(db.rows, hash) && !Issued(db.rows, family)
    ensures RowsOk(SignedIn(db, user, id, hash, family))
    ensures Evolves(db.rows, SignedIn(db, user, id, hash, family).rows)
  {
    var rows' := SignedIn(db, user, id, hash, family).rows;
    forall f | Issued(rows', f)
      ensures HasChain(rows', f)
    {
      var x :| x in rows' && rows'[x].familyId == f;
      if x == id {
        assert IsChain(rows', family, [id]);
      } else {
        var chain, _ := ChainOf(db.rows, x);
        assert f != family;
        UntouchedChain(db.rows, rows', f, chain);
      }
    }
    forall x | x in rows' && x !in db.rows
      ensures !Issued(db.rows, rows'[x].familyId)
    {
    }
  }

  lemma RotateExtendsChain(db: Db, record: Snapshot, newId: RowId, newHash: Hash, family: Family)
    requires Chained(db.rows) && Current(db.rows, record) && Live(db.rows, record.id)
    requires newId !in db.rows
    requires Issued(Rotate(db, record, newId, newHash).0.rows, family)
    ensures HasChain(Rotate(db, record, newId, newHash).0.rows, family)
  {
    var rows, rows' := db.rows, Rotate(db, record, newId, newHash).0.rows;
    if family == rows[record.id].familyId {
      var chain, i := ChainOf(rows, record.id);
      ChainExtends(db, record, newId, newHash, chain);
    } else {
      var x :| x in rows' && rows'[x].familyId == family;
      var chain, _ := ChainOf(rows, x);
      UntouchedChain(rows, rows', family, chain);
    }
  }

  lemma ChainExtends(db: Db, record: Snapshot, newId: RowId, newHash: Hash, chain: seq<RowId>)
    requires Current(db.rows, record) && Live(db.rows, record.id) && newId !in db.rows
    requires IsChain(db.rows, record.row.familyId, chain) && chain[|chain| - 1] == record.id
    ensures IsChain(Rotate(db, record, newId, newHash).0.rows, record.row.familyId, chain + [newId])
  {
    var rows' := Rotate(db, record, newId, newHash).0.rows;
    var longer := chain + [newId];
    forall i, j | 0 <= i < j < |longer|
      ensures longer[i] != longer[j]
    {
      assert longer[i] in db.rows;
    }
    forall i | 0 <= i < |longer|
      ensures longer[i] in rows' && rows'[longer[i]].familyId == record.row.familyId
    {
      assert i < |chain| ==> longer[i] == chain[i] && chain[i] in db.rows;
    }
    forall id | id in rows' && rows'[id].familyId == record.row.familyId
      ensures id in longer
    {
      if id != newId {
        assert id in db.rows && db.rows[id].familyId == record.row.familyId;
        assert id in chain;
      }
    }
    forall i, j | 0 <= i < j < |longer| && j == i + 1
      ensures rows'[longer[i]].replacedById == Some(longer[j]) && rows'[longer[i]].revokedAt.Some?
    {
      if j < |chain| {
        assert longer[i] == chain[i] && longer[j] == chain[j];
        assert db.rows[chain[i]].replacedById == Some(chain[j]);
        assert chain[i] != chain[|chain| - 1];
        assert rows'[chain[i]] == db.rows[chain[i]];
      } else {
        assert longer[i] == record.id;
      }
    }
    assert longer[|longer| - 1] == newId;
  }

  /** The claim can only be won on the tail of a chain, so the successor extends that chain. */
  lemma RotateKeepsRowsOk(db: Db, record: Snapshot, newId: RowId, newHash: Hash)
    requires RowsOk(db) && Current(db.rows, record)
    requires newId !in db.rows && FreshHash(db.rows, newHash)
    ensures RowsOk(Rotate(db, record, newId, newHash).0)
    ensures Evolves(db.rows, Rotate(db, record, newId, newHash).0.rows)
  {
    if Live(db.rows, record.id) {
      var rows' := Rotate(db, record, newId, newHash).0.rows;
      forall family | Issued(rows', family)
        ensures HasChain(rows', family)
      {
        RotateExtendsChain(db, record, newId, newHash, family);
      }
      assert forall id :: id in rows' && id != newId ==> id in db.rows && SameIdentity(rows'[id], db.rows[id]);
      assert rows'[newId].familyId == db.rows[record.id].familyId;
    }
  }

  // ---- One step ----

  /** What a request holds stays true while others move the table. */
  lemma EvolvingKeepsPhase(rows: map<RowId, Row>, rows': map<RowId, Row>, phase: Phase)
    requires PhaseOk(rows, phase) && Evolves(rows, rows')
    ensures PhaseOk(rows', phase)
  {
    match phase {
      case Killing(family) => EvolvingKeepsIssued(rows, rows', family);
      case Ending(family) => EvolvingKeepsIssued(rows, rows', family);
      case Done(Replayed(family)) => EvolvingKeepsIssued(rows, rows', family);
      case Done(Reused(family)) => DeadStaysDead(rows, rows', family);
      case _ =>
    }
  }

  lemma EvolvingKeepsIssued(rows: map<RowId, Row>, rows': map<RowId, Row>, family: Family)
    requires Issued(rows, family) && Evolves(rows, rows')
    ensures Issued(rows', family)
  {
    var id :| id in rows && rows[id].familyId == family;
    assert id in rows' && rows'[id].familyId == family;
  }

  lemma DeadStaysDead(rows: map<RowId, Row>, rows': map<RowId, Row>, family: Family)
    requires Dead(rows, family) && Evolves(rows, rows')
    ensures Dead(rows', family)
  {
    EvolvingKeepsIssued(rows, rows', family);
    forall id | id in rows' && rows'[id].familyId == family
      ensures rows'[id].revokedAt.Some?
    {
      if id !in rows {
        assert false;
      }
    }
  }

  lemma FindByHashFinds(db: Db, hash: Hash)
    requires RowsOk(db)
    ensures forall id :: id in db.rows && db.rows[id].tokenHash == hash ==>
              FindByHash(db.rows, hash) == Some(Snapshot(id, db.rows[id]))
  {
  }

  predicate Writes(phase: Phase) {
    phase.Claiming? || phase.Killing? || phase.Ending?
  }

  /** A step that only reads leaves the table, and the request knowing only true things. */
  lemma ReadKeeps(db: Db, phase: Phase, newId: RowId, newHash: Hash)
    requires RowsOk(db) && PhaseOk(db.rows, phase) && !Writes(phase)
    ensures var (db', phase') := Advance(db, phase, newId, newHash);
      db' == db && PhaseOk(db.rows, phase')
  {
    hide IsChain;
    match phase {
      case Presented(hash) => FindByHashFinds(db, hash);
      case Lost(record) => FindByHashFinds(db, record.row.tokenHash);
      case Spent(record) => assert Issued(db.rows, record.row.familyId);
      case Fetching(record, next) => LinksFormAChain(db.rows, record.id, record.id);
      case Fetched(record, replacement) => assert Issued(db.rows, record.row.familyId);
      case LogoutPresented(hash) => FindByHashFinds(db, hash);
      case _ =>
    }
  }

  lemma RevocationKeeps(db: Db, family: Family)
    requires RowsOk(db) && Issued(db.rows, family)
    ensures
      var db' := db.(rows := RevokeFamily(db.rows, family, db.now));
      RowsOk(db') && Evolves(db.rows, db'.rows) && Dead(db'.rows, family)
  {
    hide IsChain, Chained;
    var db' := db.(rows := RevokeFamily(db.rows, family, db.now));
    StampsKeepRowsOk(db, db');
    EvolvingKeepsIssued(db.rows, db'.rows, family);
  }

  /** One request's step keeps the table in order and leaves the request knowing only true things. */
  lemma AdvanceKeeps(db: Db, phase: Phase, newId: RowId, newHash: Hash)
    requires RowsOk(db) && PhaseOk(db.rows, phase)
    requires newId !in db.rows && FreshHash(db.rows, newHash)
    ensures var (db', phase') := Advance(db, phase, newId, newHash);
      RowsOk(db') && Evolves(db.rows, db'.rows) && PhaseOk(db'.rows, phase')
  {
    hide RowsOk;
    if phase.Claiming? {
      RotateKeepsRowsOk(db, phase.record, newId, newHash);
    } else if Writes(phase) {
      RevocationKeeps(db, phase.familyId);
    } else {
      ReadKeeps(db, phase, newId, newHash);
    }
  }

  lemma NextKeeps(s: State, e: Event)
    requires Inv(s) && Enabled(s, e)
    ensures Inv(Next(s, e)) && Evolves(s.db.rows, Next(s, e).db.rows)
  {
    var s' := Next(s, e);
    match e {
      case Tick(at) =>
        TickKeepsRowsOk(s.db, at);
      case SignIn(user, id, hash, family) => SignInKeepsRowsOk(s.db, user, id, hash, family);
      case ResetPassword(user) => StampsKeepRowsOk(s.db, s'.db);
      case Call(r, phase) =>
      case Step(r, newId, newHash) => AdvanceKeeps(s.db, s.requests[r], newId, newHash);
    }
    forall r | r in s'.requests
      ensures PhaseOk(s'.db.rows, s'.requests[r])
    {
      if r in s.requests && s'.requests[r] == s.requests[r] {
        EvolvingKeepsPhase(s.db.rows, s'.db.rows, s.requests[r]);
      }
    }
    RotationsStayApart(s, e);
  }

  /** What happens between the requests: time passes, a family is opened with one live row, a user's rows are stamped. */
  lemma EventsInTerms(s: State, e: Event)
    requires Enabled(s, e) && !e.Step?
    ensures
      var s' := Next(s, e);
      && s'.db.now == (if e.Tick? then e.at else s.db.now) && s'.db.ttl == s.db.ttl
      && s'.requests == (if e.Call? then s.requests[e.request := e.phase] else s.requests)
      && (e.Tick? || e.Call? ==> s'.db.rows == s.db.rows)
      && (e.SignIn? ==>
            s'.db.rows == s.db.rows[e.id := Row(e.user, e.hash, e.family, s.db.now + s.db.ttl, None, None)])
      && (e.ResetPassword? ==>
            && s'.db.rows.Keys == s.db.rows.Keys
            && forall id :: id in s.db.rows ==>
                 var row := s.db.rows[id];
                 s'.db.rows[id] ==
                 if row.userId == e.user && row.revokedAt.None? then row.(revokedAt := Some(s.db.now)) else row)
  {
  }

  lemma TickKeepsRowsOk(db: Db, at: int)
    requires RowsOk(db) && db.now <= at
    ensures RowsOk(db.(now := at))
  {
  }

  /** A token rotates at most once: the winner's claim was on a live row, every earlier winner's row is spent. */
  lemma RotationsStayApart(s: State, e: Event)
    requires Inv(s) && Enabled(s, e)
    ensures var s' := Next(s, e);
      forall r, q :: Rotates(s', r) && Rotates(s', q) && r != q ==>
        s'.requests[r].outcome.from != s'.requests[q].outcome.from
  {
    var s' := Next(s, e);
    forall r, q | Rotates(s', r) && Rotates(s', q) && r != q
      ensures s'.requests[r].outcome.from != s'.requests[q].outcome.from
    {
      if e.Step? {
        assert forall x :: x in s.requests && x != e.request ==> s'.requests[x] == s.requests[x];
        assert Rotates(s, r) ==> PhaseOk(s.db.rows, s.requests[r]);
        assert Rotates(s, q) ==> PhaseOk(s.db.rows, s.requests[q]);
      }
    }
  }

  // ---- Runs ----

  /** What one step may do, any number of steps may do, and no more. */
  lemma EvolvesOnward(rows: map<RowId, Row>, mid: map<RowId, Row>, end: map<RowId, Row>)
    requires Evolves(rows, mid) && Evolves(mid, end)
    ensures Evolves(rows, end)
  {
    forall id | id in rows
      ensures id in end && Follows(rows[id], end[id])
    {
      assert Follows(rows[id], mid[id]) && Follows(mid[id], end[id]);
    }
    forall id | id in end && id !in rows && Issued(rows, end[id].familyId)
      ensures exists parent :: Live(rows, parent) && rows[parent].familyId == end[id].familyId
    {
      if id !in mid {
        EvolvingKeepsIssued(rows, mid, end[id].familyId);
        var parent :| Live(mid, parent) && mid[parent].familyId == end[id].familyId;
        if parent in rows {
          assert Follows(rows[parent], mid[parent]);
        }
      } else {
        assert Follows(mid[id], end[id]);
      }
    }
  }

  /** The invariant holds along every run, and a whole run does to the table no more than a step may. */
  lemma {:induction false} RunKeeps(s: State, events: seq<Event>)
    requires Inv(s) && IsRun(s, events)
    ensures Inv(After(s, events))
    ensures Evolves(s.db.rows, After(s, events).db.rows)
    decreases |events|
  {
    hide Inv, Next, Enabled;
    if events != [] {
      NextKeeps(s, events[0]);
      RunKeeps(Next(s, events[0]), events[1..]);
      EvolvesOnward(s.db.rows, Next(s, events[0]).db.rows, After(s, events).db.rows);
    }
  }

  /**
   * In every run: each family is one chain, no request ever reads a null stamp or
   * a missing row, a token rotates at most once, and a family reported as reused is dead.
   */
  lemma EveryRunIsSafe(s: State, events: seq<Event>)
    requires Initial(s) && IsRun(s, events)
    ensures Inv(After(s, events))
  {
    RunKeeps(s, events);
  }

  /** A stamp is never overwritten or cleared, nor is anything else on a revoked row. */
  lemma {:induction false} RevokedRowsAreFrozen(s: State, events: seq<Event>, id: RowId)
    requires Inv(s) && IsRun(s, events)
    requires id in s.db.rows && s.db.rows[id].revokedAt.Some?
    ensures id in After(s, events).db.rows
    ensures After(s, events).db.rows[id] == s.db.rows[id]
    decreases |events|
  {
    if events != [] {
      NextKeeps(s, events[0]);
      RevokedRowsAreFrozen(Next(s, events[0]), events[1..], id);
    }
  }

  /** What may still happen in a dead family: nothing but a replay whose successor was read before the family died. */
  ghost predicate MayStillReplay(s: State, r: RequestId, family: Family) {
    && r in s.requests
    && ((s.requests[r].Fetched? && s.requests[r].replacement.Some?
         && s.requests[r].replacement.value.revokedAt.None?
         && s.requests[r].replacement.value.familyId == family)
        || s.requests[r] == Done(Replayed(family)))
  }

  ghost predicate HasRotated(s: State, r: RequestId, family: Family) {
    Rotates(s, r) && s.requests[r].outcome.familyId == family
  }

  /**
   * A dead family stays dead in every continuation, whatever requests had already
   * read: no request completes a rotation in it, and the only sessions it can
   * still answer are replays that had already fetched a live successor.
   */
  lemma {:induction false} NoResurrection(s: State, events: seq<Event>, family: Family, r: RequestId)
    requires Inv(s) && IsRun(s, events) && Dead(s.db.rows, family)
    ensures Dead(After(s, events).db.rows, family)
    ensures HasRotated(After(s, events), r, family) ==> HasRotated(s, r, family)
    ensures MayStillReplay(After(s, events), r, family) ==> MayStillReplay(s, r, family)
    decreases |events|
  {
    if events != [] {
      var e, s' := events[0], Next(s, events[0]);
      NextKeeps(s, e);
      DeadStaysDead(s.db.rows, s'.db.rows, family);
      DeadStep(s, e, family, r);
      NoResurrection(s', events[1..], family, r);
    }
  }

  lemma DeadStep(s: State, e: Event, family: Family, r: RequestId)
    requires Inv(s) && Enabled(s, e) && Dead(s.db.rows, family)
    ensures HasRotated(Next(s, e), r, family) ==> HasRotated(s, r, family)
    ensures MayStillReplay(Next(s, e), r, family) ==> MayStillReplay(s, r, family)
  {
    if e.Step? && e.request == r {
      assert PhaseOk(s.db.rows, s.requests[r]);
      if s.requests[r].Fetching? {
        LinksFormAChain(s.db.rows, s.requests[r].record.id, s.requests[r].record.id);
      }
    }
  }

  lemma RevokeFamilyKills(rows: map<RowId, Row>, family: Family, now: int)
    requires Issued(rows, family)
    ensures Dead(RevokeFamily(rows, family, now), family)
  {
    var id :| id in rows && rows[id].familyId == family;
    var rows' := RevokeFamily(rows, family, now);
    assert id in rows' && rows'[id].familyId == family;
  }

  lemma RevokeUserKills(rows: map<RowId, Row>, user: UserId, id: RowId, now: int)
    requires OneOwnerEach(rows) && id in rows && rows[id].userId == user
    ensures Dead(RevokeUser(rows, user, now), rows[id].familyId)
  {
    var rows' := RevokeUser(rows, user, now);
    assert id in rows' && rows'[id].familyId == rows[id].familyId;
  }

  /** Logging out, being caught replaying, and resetting the password each leave the family dead. */
  lemma RevocationKills(s: State, e: Event, id: RowId)
    requires Inv(s) && Enabled(s, e) && id in s.db.rows
    requires
      var family := s.db.rows[id].familyId;
      || (e.Step? && (s.requests[e.request] == Ending(family) || s.requests[e.request] == Killing(family)))
      || (e.ResetPassword? && e.user == s.db.rows[id].userId)
    ensures Dead(Next(s, e).db.rows, s.db.rows[id].familyId)
  {
    RevokeFamilyKills(s.db.rows, s.db.rows[id].familyId, s.db.now);
    RevokeUserKills(s.db.rows, s.db.rows[id].userId, id, s.db.now);
  }

  /** Every request answers: each of its own steps brings the answer nearer, whatever the others do. */
  lemma RequestsFinish(db: Db, phase: Phase, newId: RowId, newHash: Hash)
    ensures !phase.Done? ==> StepsLeft(Advance(db, phase, newId, newHash).1) < StepsLeft(phase)
    ensures phase.Done? <==> StepsLeft(phase) == 0
  {
  }
}
