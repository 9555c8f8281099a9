/**
 * The projects board's column map: the server's columns, this session's drops
 * laid over them, and the drop itself.
 */
module BoardOrder {
  import opened Lists
  import opened Prelude

  datatype ProjectStatus = Backlog | Planning | Active | OnHold | Completed | Cancelled

  const PROJECT_STATUSES: seq<ProjectStatus> := [Backlog, Planning, Active, OnHold, Completed, Cancelled]

  type Id = string

  /** `Record<ProjectStatus, string[]>`: every status has a column. */
  type ColumnMap = columns: map<ProjectStatus, seq<Id>> | forall s: ProjectStatus :: s in columns
    witness NO_CARDS

  const NO_CARDS: map<ProjectStatus, seq<Id>> := map s: ProjectStatus :: []

  datatype Project = Project(id: Id, status: ProjectStatus)

  // ---- Filters ----

  function IdsOf(projects: seq<Project>, status: ProjectStatus): seq<Id> {
    if projects == [] then []
    else if projects[0].status == status then [projects[0].id] + IdsOf(projects[1..], status)
    else IdsOf(projects[1..], status)
  }

  function Within(wanted: set<Id>): Id -> bool {
    (id: Id) => id in wanted
  }

  function Outside(taken: set<Id>): Id -> bool {
    (id: Id) => id !in taken
  }

  /** The ids that are in `wanted`, in order. */
  function Keep(ids: seq<Id>, wanted: set<Id>): seq<Id> {
    Filter(ids, Within(wanted))
  }

  /** The ids that are not in `taken`, in order. */
  function Omit(ids: seq<Id>, taken: set<Id>): seq<Id> {
    Filter(ids, Outside(taken))
  }

  function AllIds(columns: ColumnMap): set<Id> {
    set s: ProjectStatus, id | id in columns[s] :: id
  }

  // ---- What the code computes ----

  ghost function Base(projects: seq<Project>): ColumnMap {
    map s: ProjectStatus :: IdsOf(projects, s)
  }

  ghost function Reconciled(base: ColumnMap, stored: Option<ColumnMap>): ColumnMap {
    match stored
    case None => base
    case Some(kept) =>
      (map s: ProjectStatus :: Omit(base[s], AllIds(kept)) + Keep(kept[s], AllIds(base)))
  }

  function Clamped(index: int, length: nat): nat {
    if index < 0 then 0 else if index > length then length else index
  }

  ghost function PlacedIn(ids: seq<Id>, id: Id, here: bool, index: int): seq<Id> {
    var rest := Omit(ids, {id});
    if here then InsertAt(rest, Clamped(index, |rest|), id) else rest
  }

  ghost function Placed(columns: ColumnMap, id: Id, status: ProjectStatus, index: int): ColumnMap {
    map s: ProjectStatus :: PlacedIn(columns[s], id, s == status, index)
  }

  // ---- The code ----

  lemma EveryStatusListed(s: ProjectStatus)
    ensures s in PROJECT_STATUSES
  {
    assert PROJECT_STATUSES[0] == Backlog && PROJECT_STATUSES[1] == Planning && PROJECT_STATUSES[2] == Active;
    assert PROJECT_STATUSES[3] == OnHold && PROJECT_STATUSES[4] == Completed && PROJECT_STATUSES[5] == Cancelled;
  }

  method BaseColumns(projects: seq<Project>) returns (result: ColumnMap)
    ensures result == Base(projects)
  {
    var columns: map<ProjectStatus, seq<Id>> := map[];
    for i := 0 to |PROJECT_STATUSES|
      invariant forall s :: s in PROJECT_STATUSES[..i] ==> s in columns && columns[s] == IdsOf(projects, s)
    {
      columns := columns[PROJECT_STATUSES[i] := IdsOf(projects, PROJECT_STATUSES[i])];
    }
    forall s: ProjectStatus
      ensures s in columns && columns[s] == IdsOf(projects, s)
    {
      EveryStatusListed(s);
    }
    result := columns;
  }

  predicate SameColumns(a: ColumnMap, b: ColumnMap)
    ensures SameColumns(a, b) <==> a == b
  {
    assert (forall s: ProjectStatus :: a[s] == b[s]) ==> a == b;
    forall s: ProjectStatus :: |a[s]| == |b[s]| && forall at :: 0 <= at < |a[s]| ==> a[s][at] == b[s][at]
  }

  method Reconcile(base: ColumnMap, stored: Option<ColumnMap>) returns (result: ColumnMap)
    ensures result == Reconciled(base, stored)
  {
    if stored.None? {
      return base;
    }
    var known, placed := AllIds(base), AllIds(stored.value);
    var columns: map<ProjectStatus, seq<Id>> := map[];
    for i := 0 to |PROJECT_STATUSES|
      invariant forall s :: s in PROJECT_STATUSES[..i] ==>
                  s in columns && columns[s] == Omit(base[s], placed) + Keep(stored.value[s], known)
    {
      var s := PROJECT_STATUSES[i];
      var kept := Keep(stored.value[s], known);
      var added := Omit(base[s], placed);
      columns := columns[s := added + kept];
    }
    forall s: ProjectStatus
      ensures s in columns && columns[s] == Omit(base[s], placed) + Keep(stored.value[s], known)
    {
      EveryStatusListed(s);
    }
    result := if SameColumns(columns, stored.value) then stored.value else columns;
  }

  lemma PlacedByColumn(columns: ColumnMap, id: Id, status: ProjectStatus, index: int, next: ColumnMap)
    requires forall s: ProjectStatus :: next[s] == PlacedIn(columns[s], id, s == status, index)
    ensures next == Placed(columns, id, status, index)
  {
  }

  /** Every column is filtered, so a card listed twice goes as well. */
  method RemoveEverywhere(columns: ColumnMap, id: Id) returns (result: ColumnMap)
    ensures forall s: ProjectStatus :: result[s] == Omit(columns[s], {id})
  {
    var next: map<ProjectStatus, seq<Id>> := map[];
    for i := 0 to |PROJECT_STATUSES|
      invariant forall s :: s in PROJECT_STATUSES[..i] ==> s in next && next[s] == Omit(columns[s], {id})
    {
      next := next[PROJECT_STATUSES[i] := Omit(columns[PROJECT_STATUSES[i]], {id})];
    }
    forall s: ProjectStatus
      ensures s in next && next[s] == Omit(columns[s], {id})
    {
      EveryStatusListed(s);
    }
    result := next;
  }

  method Place(columns: ColumnMap, id: Id, status: ProjectStatus, index: int) returns (result: ColumnMap)
    ensures result == Placed(columns, id, status, index)
  {
    var next := RemoveEverywhere(columns, id);
    var at := Clamped(index, |next[status]|);
    result := next[status := next[status][..at] + [id] + next[status][at..]];
    PlacedByColumn(columns, id, status, index, result);
  }

  // ---- Facts about the filters ----

  lemma FilterKeepsDistinct(ids: seq<Id>, p: Id -> bool)
    ensures forall x :: x in Filter(ids, p) <==> x in ids && p(x)
    ensures Distinct(ids) ==> Distinct(Filter(ids, p))
  {
    FilterMembers(ids, p);
    if Distinct(ids) {
      FilterDistinct(ids, p);
    }
  }

  ghost predicate Precedes(ids: seq<Id>, a: Id, b: Id) {
    exists i, j :: 0 <= i < j < |ids| && ids[i] == a && ids[j] == b
  }

  lemma PrecedesTail(ids: seq<Id>, a: Id, b: Id)
    requires ids != []
    ensures Precedes(ids, a, b) <==> (ids[0] == a && b in ids[1..]) || Precedes(ids[1..], a, b)
  {
    if Precedes(ids[1..], a, b) {
      var i, j :| 0 <= i < j < |ids[1..]| && ids[1..][i] == a && ids[1..][j] == b;
      assert ids[i + 1] == a && ids[j + 1] == b;
    }
    if ids[0] == a && b in ids[1..] {
      var j :| 0 <= j < |ids[1..]| && ids[1..][j] == b;
      assert ids[0] == a && ids[j + 1] == b;
    }
    if Precedes(ids, a, b) {
      var i, j :| 0 <= i < j < |ids| && ids[i] == a && ids[j] == b;
      assert ids[1..][j - 1] == b;
      if i > 0 {
        assert ids[1..][i - 1] == a;
      }
    }
  }

  /** A filter keeps the order of what it keeps. */
  lemma {:induction false} FilterKeepsOrder(ids: seq<Id>, p: Id -> bool, a: Id, b: Id)
    requires Precedes(ids, a, b) && p(a) && p(b)
    ensures Precedes(Filter(ids, p), a, b)
  {
    PrecedesTail(ids, a, b);
    FilterMembers(ids[1..], p);
    var rest := Filter(ids[1..], p);
    if Precedes(ids[1..], a, b) {
      FilterKeepsOrder(ids[1..], p, a, b);
    }
    if p(ids[0]) {
      PrecedesTail([ids[0]] + rest, a, b);
      assert ([ids[0]] + rest)[1..] == rest;
    }
  }

  // ---- The server's columns ----

  lemma {:induction false} IdsAreOfStatus(projects: seq<Project>, s: ProjectStatus, id: Id)
    ensures id in IdsOf(projects, s) <==> exists i :: 0 <= i < |projects| && projects[i] == Project(id, s)
  {
    if projects != [] {
      IdsAreOfStatus(projects[1..], s, id);
      if i :| 0 <= i < |projects| && projects[i] == Project(id, s) {
        assert i > 0 ==> projects[1..][i - 1] == Project(id, s);
      }
      if i :| 0 <= i < |projects[1..]| && projects[1..][i] == Project(id, s) {
        assert projects[i + 1] == Project(id, s);
      }
    }
  }

  /** A status's column lists its own projects, in the order the server returned them. */
  lemma {:induction false} ColumnInServerOrder(projects: seq<Project>, s: ProjectStatus, i: nat, j: nat)
    requires i < j < |projects| && projects[i].status == s && projects[j].status == s
    ensures Precedes(IdsOf(projects, s), projects[i].id, projects[j].id)
  {
    var ids, rest := IdsOf(projects, s), projects[1..];
    if i == 0 {
      assert rest[j - 1] == Project(projects[j].id, s);
      IdsAreOfStatus(rest, s, projects[j].id);
      assert ids == [projects[0].id] + IdsOf(rest, s);
      PrecedesTail(ids, projects[0].id, projects[j].id);
    } else {
      ColumnInServerOrder(rest, s, i - 1, j - 1);
      if projects[0].status == s {
        PrecedesTail(ids, projects[i].id, projects[j].id);
      }
    }
  }

  lemma {:induction false} ColumnSize(projects: seq<Project>, s: ProjectStatus)
    ensures |IdsOf(projects, s)| == |set i: nat | i < |projects| && projects[i].status == s|
    decreases |projects|
  {
    if projects != [] {
      hide IdsOf;
      var n := |projects| - 1;
      ColumnSize(projects[..n], s);
      IdsOfLast(projects, s);
      var before := set i: nat | i < n && projects[..n][i].status == s;
      var all := set i: nat | i < |projects| && projects[i].status == s;
      forall i: nat
        ensures i in all <==> i in before || (projects[n].status == s && i == n)
      {
        assert i < n ==> projects[..n][i] == projects[i];
      }
      OneMorePlace(before, all, n, projects[n].status == s);
    }
  }

  lemma {:induction false} IdsOfLast(projects: seq<Project>, s: ProjectStatus)
    requires projects != []
    ensures
      var n := |projects| - 1;
      IdsOf(projects, s) == IdsOf(projects[..n], s) + (if projects[n].status == s then [projects[n].id] else [])
  {
    var n := |projects| - 1;
    if n > 0 {
      assert projects[1..][..n - 1] == projects[..n][1..];
      IdsOfLast(projects[1..], s);
    }
  }

  // ---- Each id exactly once ----

  ghost predicate NoRepeats(columns: ColumnMap) {
    && (forall s: ProjectStatus :: Distinct(columns[s]))
    && (forall s: ProjectStatus, t: ProjectStatus, id :: id in columns[s] && id in columns[t] ==> s == t)
  }

  ghost predicate UniqueProjects(projects: seq<Project>) {
    forall i, j :: 0 <= i < j < |projects| ==> projects[i].id != projects[j].id
  }

  ghost predicate Known(projects: seq<Project>, id: Id) {
    exists i :: 0 <= i < |projects| && projects[i].id == id
  }

  lemma {:induction false} IdsOfMembers(projects: seq<Project>, status: ProjectStatus)
    ensures forall id :: id in IdsOf(projects, status) <==>
              exists i :: 0 <= i < |projects| && projects[i] == Project(id, status)
    ensures UniqueProjects(projects) ==> Distinct(IdsOf(projects, status))
  {
    if projects != [] {
      var rest := projects[1..];
      IdsOfMembers(rest, status);
      forall id
        ensures id in IdsOf(projects, status) <==> exists i :: 0 <= i < |projects| && projects[i] == Project(id, status)
      {
        if id in IdsOf(rest, status) {
          var i :| 0 <= i < |rest| && rest[i] == Project(id, status);
          assert projects[i + 1] == Project(id, status);
        }
        if i :| 0 <= i < |projects| && projects[i] == Project(id, status) {
          if i > 0 {
            assert rest[i - 1] == Project(id, status);
          }
        }
      }
      if UniqueProjects(projects) {
        assert forall i :: 0 <= i < |rest| ==> rest[i] == projects[i + 1];
        assert projects[0].id !in IdsOf(rest, status);
      }
    }
  }

  /** The server's columns hold each project once, in its own status. */
  lemma BaseHoldsEachOnce(projects: seq<Project>)
    requires UniqueProjects(projects)
    ensures NoRepeats(Base(projects))
    ensures forall id :: id in AllIds(Base(projects)) <==> Known(projects, id)
  {
    forall s: ProjectStatus
      ensures Distinct(Base(projects)[s])
      ensures forall id :: id in Base(projects)[s] <==> exists i :: 0 <= i < |projects| && projects[i] == Project(id, s)
    {
      IdsOfMembers(projects, s);
    }
    forall id | Known(projects, id)
      ensures id in AllIds(Base(projects))
    {
      var i :| 0 <= i < |projects| && projects[i].id == id;
      assert projects[i] == Project(id, projects[i].status);
      assert id in Base(projects)[projects[i].status];
    }
  }

  lemma ReconciledColumn(base: ColumnMap, kept: ColumnMap, s: ProjectStatus, id: Id)
    ensures id in Reconciled(base, Some(kept))[s]
       <==> (id in base[s] && id !in AllIds(kept)) || (id in kept[s] && id in AllIds(base))
    ensures Distinct(base[s]) && Distinct(kept[s]) ==> Distinct(Reconciled(base, Some(kept))[s])
  {
    FilterKeepsDistinct(base[s], Outside(AllIds(kept)));
    FilterKeepsDistinct(kept[s], Within(AllIds(base)));
    if Distinct(base[s]) && Distinct(kept[s]) {
      DistinctConcat(Omit(base[s], AllIds(kept)), Keep(kept[s], AllIds(base)));
    }
  }

  lemma DistinctConcat(a: seq<Id>, b: seq<Id>)
    requires Distinct(a) && Distinct(b) && forall x :: x in a ==> x !in b
    ensures Distinct(a + b)
  {
    forall i, j | 0 <= i < j < |a + b|
      ensures (a + b)[i] != (a + b)[j]
    {
      if i < |a| <= j {
        assert a[i] in a && b[j - |a|] in b;
      }
    }
  }

  /** Laying the session's moves over the server's columns shows each server id once, and nothing else. */
  lemma ReconciledHoldsEachOnce(base: ColumnMap, stored: Option<ColumnMap>)
    requires NoRepeats(base) && (stored.Some? ==> NoRepeats(stored.value))
    ensures NoRepeats(Reconciled(base, stored))
    ensures AllIds(Reconciled(base, stored)) == AllIds(base)
  {
    if stored.Some? {
      ReconciledHasNoRepeats(base, stored.value);
      ReconciledHasTheServersIds(base, stored.value);
    }
  }

  lemma ReconciledHasNoRepeats(base: ColumnMap, kept: ColumnMap)
    requires NoRepeats(base) && NoRepeats(kept)
    ensures NoRepeats(Reconciled(base, Some(kept)))
  {
    var rendered := Reconciled(base, Some(kept));
    forall s: ProjectStatus
      ensures Distinct(rendered[s])
    {
      ReconciledColumn(base, kept, s, "");
    }
    forall s: ProjectStatus, t: ProjectStatus, id | id in rendered[s] && id in rendered[t]
      ensures s == t
    {
      ReconciledColumn(base, kept, s, id);
      ReconciledColumn(base, kept, t, id);
    }
  }

  lemma ReconciledHasTheServersIds(base: ColumnMap, kept: ColumnMap)
    ensures AllIds(Reconciled(base, Some(kept))) == AllIds(base)
  {
    var rendered := Reconciled(base, Some(kept));
    forall id
      ensures id in AllIds(rendered) <==> id in AllIds(base)
    {
      if id in AllIds(rendered) {
        var s: ProjectStatus :| id in rendered[s];
        ReconciledColumn(base, kept, s, id);
      }
      if id in AllIds(base) {
        var s: ProjectStatus :| if id in AllIds(kept) then id in kept[s] else id in base[s];
        ReconciledColumn(base, kept, s, id);
        assert id in rendered[s];
      }
    }
  }

  lemma PrecedesJoined(first: seq<Id>, second: seq<Id>, a: Id, b: Id)
    ensures a in first && b in second ==> Precedes(first + second, a, b)
    ensures Precedes(first, a, b) || Precedes(second, a, b) ==> Precedes(first + second, a, b)
  {
    var n, joined := |first|, first + second;
    assert forall i :: 0 <= i < n ==> joined[i] == first[i];
    assert forall j :: 0 <= j < |second| ==> joined[n + j] == second[j];
    if a in first && b in second {
      var i :| 0 <= i < n && first[i] == a;
      var j :| 0 <= j < |second| && second[j] == b;
      assert joined[i] == a && joined[n + j] == b;
    }
    if Precedes(first, a, b) {
      var i, j :| 0 <= i < j < n && first[i] == a && first[j] == b;
      assert joined[i] == a && joined[j] == b;
    }
    if Precedes(second, a, b) {
      var i, j :| 0 <= i < j < |second| && second[i] == a && second[j] == b;
      assert joined[n + i] == a && joined[n + j] == b;
    }
  }

  /** New ids come first in their own column, in the server's order; kept ids keep the order the session gave them. */
  lemma ReconciledOrder(base: ColumnMap, kept: ColumnMap, s: ProjectStatus, a: Id, b: Id)
    ensures var rendered := Reconciled(base, Some(kept));
      && (a in base[s] && a !in AllIds(kept) && b in kept[s] && b in AllIds(base) ==> Precedes(rendered[s], a, b))
      && (Precedes(kept[s], a, b) && a in AllIds(base) && b in AllIds(base) ==> Precedes(rendered[s], a, b))
      && (Precedes(base[s], a, b) && a !in AllIds(kept) && b !in AllIds(kept) ==> Precedes(rendered[s], a, b))
  {
    hide Filter, Precedes;
    var added, rest := Omit(base[s], AllIds(kept)), Keep(kept[s], AllIds(base));
    FilterKeepsDistinct(base[s], Outside(AllIds(kept)));
    FilterKeepsDistinct(kept[s], Within(AllIds(base)));
    PrecedesJoined(added, rest, a, b);
    if Precedes(kept[s], a, b) && a in AllIds(base) && b in AllIds(base) {
      FilterKeepsOrder(kept[s], Within(AllIds(base)), a, b);
    }
    if Precedes(base[s], a, b) && a !in AllIds(kept) && b !in AllIds(kept) {
      FilterKeepsOrder(base[s], Outside(AllIds(kept)), a, b);
    }
  }

  /** A map that already holds exactly the server's ids is left as it is. */
  lemma SettledMapIsKept(base: ColumnMap, stored: ColumnMap)
    requires AllIds(stored) == AllIds(base)
    ensures Reconciled(base, Some(stored)) == stored
  {
    hide Filter;
    forall s: ProjectStatus
      ensures Reconciled(base, Some(stored))[s] == stored[s]
    {
      FilterNone(base[s], Outside(AllIds(stored)));
      FilterAll(stored[s], Within(AllIds(base)));
    }
  }

  lemma ReconcileIsIdempotent(base: ColumnMap, stored: Option<ColumnMap>)
    requires NoRepeats(base) && (stored.Some? ==> NoRepeats(stored.value))
    ensures Reconciled(base, Some(Reconciled(base, stored))) == Reconciled(base, stored)
  {
    ReconciledHoldsEachOnce(base, stored);
    SettledMapIsKept(base, Reconciled(base, stored));
  }

  lemma PlacedColumn(columns: ColumnMap, id: Id, status: ProjectStatus, index: int, s: ProjectStatus, x: Id)
    ensures var next := Placed(columns, id, status, index);
      && (x in next[s] <==> if x == id then s == status else x in columns[s])
      && Omit(next[s], {id}) == Omit(columns[s], {id})
      && (Distinct(columns[s]) ==> Distinct(next[s]))
  {
    var rest := Omit(columns[s], {id});
    FilterKeepsDistinct(columns[s], Outside({id}));
    if s == status {
      OmitInserted(rest, Clamped(index, |rest|), id);
    } else {
      FilterAll(rest, Outside({id}));
    }
  }

  /** A drop puts the card at the clamped index of its column, and nowhere else, duplicates included. */
  lemma PlacedOnce(columns: ColumnMap, id: Id, status: ProjectStatus, index: int)
    ensures var next := Placed(columns, id, status, index);
      && (forall s: ProjectStatus :: id in next[s] <==> s == status)
      && (forall s: ProjectStatus :: Omit(next[s], {id}) == Omit(columns[s], {id}))
      && next[status] != []
      && (var last := |next[status]| - 1;
          next[status][if index < 0 then 0 else if index > last then last else index] == id)
      && multiset(next[status])[id] == 1
  {
    hide Filter, InsertAt, Distinct;
    forall s: ProjectStatus
      ensures id in Placed(columns, id, status, index)[s] <==> s == status
      ensures Omit(Placed(columns, id, status, index)[s], {id}) == Omit(columns[s], {id})
    {
      PlacedColumn(columns, id, status, index, s, id);
    }
    var rest := Omit(columns[status], {id});
    FilterKeepsDistinct(columns[status], Outside({id}));
    InsertedOnce(rest, Clamped(index, |rest|), id);
  }

  lemma InsertedOnce(rest: seq<Id>, at: nat, id: Id)
    requires at <= |rest| && id !in rest
    ensures var list := InsertAt(rest, at, id);
      |list| == |rest| + 1 && list[at] == id && multiset(list)[id] == 1
  {
    InsertAtAdds(rest, at, id);
    assert multiset(rest)[id] == 0;
  }

  lemma PlacedKeepsNoRepeats(columns: ColumnMap, id: Id, status: ProjectStatus, index: int)
    requires NoRepeats(columns)
    ensures NoRepeats(Placed(columns, id, status, index))
  {
    var next := Placed(columns, id, status, index);
    forall s: ProjectStatus
      ensures Distinct(next[s])
    {
      PlacedColumn(columns, id, status, index, s, id);
    }
    forall s: ProjectStatus, t: ProjectStatus, x | x in next[s] && x in next[t]
      ensures s == t
    {
      PlacedColumn(columns, id, status, index, s, x);
      PlacedColumn(columns, id, status, index, t, x);
    }
  }

  lemma PlacedIds(columns: ColumnMap, id: Id, status: ProjectStatus, index: int)
    ensures AllIds(Placed(columns, id, status, index)) == AllIds(columns) + {id}
  {
    var next := Placed(columns, id, status, index);
    forall x
      ensures x in AllIds(next) <==> x in AllIds(columns) + {id}
    {
      if x in AllIds(next) {
        var s: ProjectStatus :| x in next[s];
        PlacedColumn(columns, id, status, index, s, x);
      }
      if x in AllIds(columns) + {id} {
        var s: ProjectStatus :| if x == id then s == status else x in columns[s];
        PlacedColumn(columns, id, status, index, s, x);
        assert x in next[s];
      }
    }
  }

  lemma OmitInserted(rest: seq<Id>, at: nat, id: Id)
    requires at <= |rest| && id !in rest
    ensures Omit(InsertAt(rest, at, id), {id}) == rest
    ensures forall x :: x in InsertAt(rest, at, id) <==> x in rest || x == id
    ensures Distinct(rest) ==> Distinct(InsertAt(rest, at, id))
  {
    assert rest == rest[..at] + rest[at..];
    assert InsertAt(rest, at, id) == rest[..at] + ([id] + rest[at..]);
    FilterAppend(rest[..at], [id] + rest[at..], Outside({id}));
    FilterAll(rest[..at], Outside({id}));
    FilterAll(rest[at..], Outside({id}));
    assert ([id] + rest[at..])[1..] == rest[at..];
    if Distinct(rest) {
      DistinctInsert(rest, at, id);
    }
  }

  lemma DistinctInsert(rest: seq<Id>, at: nat, id: Id)
    requires at <= |rest| && id !in rest && Distinct(rest)
    ensures Distinct(InsertAt(rest, at, id))
  {
    var list := InsertAt(rest, at, id);
    forall i, j | 0 <= i < j < |list|
      ensures list[i] != list[j]
    {
      assert i != at ==> list[i] == rest[if i < at then i else i - 1];
      assert j != at ==> list[j] == rest[if j < at then j else j - 1];
    }
  }

  /** A fresh drop of a known card is what the board shows next. */
  lemma FreshDropIsShown(base: ColumnMap, stored: Option<ColumnMap>, id: Id, status: ProjectStatus, index: int)
    requires NoRepeats(base) && (stored.Some? ==> NoRepeats(stored.value)) && id in AllIds(base)
    ensures var dropped := Placed(Reconciled(base, stored), id, status, index);
      Reconciled(base, Some(dropped)) == dropped
  {
    ReconciledHoldsEachOnce(base, stored);
    PlacedIds(Reconciled(base, stored), id, status, index);
    SettledMapIsKept(base, Placed(Reconciled(base, stored), id, status, index));
  }

  /** `PROJECT_STATUSES.find` over the columns. */
  function StatusOf(columns: ColumnMap, id: Id): Option<ProjectStatus> {
    if id in columns[Backlog] then Some(Backlog)
    else if id in columns[Planning] then Some(Planning)
    else if id in columns[Active] then Some(Active)
    else if id in columns[OnHold] then Some(OnHold)
    else if id in columns[Completed] then Some(Completed)
    else if id in columns[Cancelled] then Some(Cancelled)
    else None
  }

  // ---- A session ----

  datatype Session = Session(projects: seq<Project>, stored: Option<ColumnMap>)

  datatype Event = Revalidate(projects: seq<Project>) | Release(id: Id, status: ProjectStatus, index: int)

  ghost function Rendered(s: Session): ColumnMap {
    Reconciled(Base(s.projects), s.stored)
  }

  ghost function Next(s: Session, e: Event): Session {
    match e
    case Revalidate(projects) => s.(projects := projects)
    case Release(id, status, index) =>
      if Known(s.projects, id) then s.(stored := Some(Placed(Rendered(s), id, status, index))) else s
  }

  ghost function After(s: Session, events: seq<Event>): Session
    decreases |events|
  {
    if events == [] then s else After(Next(s, events[0]), events[1..])
  }

  ghost predicate SessionOk(s: Session) {
    UniqueProjects(s.projects) && (s.stored.Some? ==> NoRepeats(s.stored.value))
  }

  lemma EventKeepsOk(s: Session, e: Event)
    requires SessionOk(s) && (e.Revalidate? ==> UniqueProjects(e.projects))
    ensures SessionOk(Next(s, e))
  {
    if e.Release? && Known(s.projects, e.id) {
      BaseHoldsEachOnce(s.projects);
      ReconciledHoldsEachOnce(Base(s.projects), s.stored);
      PlacedKeepsNoRepeats(Rendered(s), e.id, e.status, e.index);
    }
  }

  lemma {:induction false} SessionStaysOk(s: Session, events: seq<Event>)
    requires SessionOk(s)
    requires forall i :: 0 <= i < |events| && events[i].Revalidate? ==> UniqueProjects(events[i].projects)
    ensures SessionOk(After(s, events))
    decreases |events|
  {
    if events != [] {
      var e := events[0];
      EventKeepsOk(s, e);
      assert forall i :: 0 <= i < |events[1..]| ==> events[1..][i] == events[i + 1];
      SessionStaysOk(Next(s, e), events[1..]);
    }
  }

  lemma {:induction false} AfterOneMore(s: Session, events: seq<Event>, e: Event)
    ensures After(s, events + [e]) == Next(After(s, events), e)
    decreases |events|
  {
    if events == [] {
      assert [e][1..] == [];
      assert [] + [e] == [e];
    } else {
      assert (events + [e])[1..] == events[1..] + [e];
      AfterOneMore(Next(s, events[0]), events[1..], e);
    }
  }

  /**
   * After any run, a drop of a card the server knows shows it where it was dropped, in the columns as they
   * stood, and a drop of any other card changes nothing; a revalidation brings the projects it returns.
   */
  lemma LastEventIsShown(projects: seq<Project>, events: seq<Event>, e: Event)
    requires UniqueProjects(projects)
    requires forall i :: 0 <= i < |events| && events[i].Revalidate? ==> UniqueProjects(events[i].projects)
    ensures
      var s, t := After(Session(projects, None), events), After(Session(projects, None), events + [e]);
      && (e.Revalidate? ==> t == Session(e.projects, s.stored))
      && (e.Release? ==>
            var known := exists i :: 0 <= i < |s.projects| && s.projects[i].id == e.id;
            && t.projects == s.projects
            && Rendered(t) == if known then Placed(Rendered(s), e.id, e.status, e.index) else Rendered(s))
  {
    var s := After(Session(projects, None), events);
    AfterOneMore(Session(projects, None), events, e);
    SessionStaysOk(Session(projects, None), events);
    if e.Release? && Known(s.projects, e.id) {
      BaseHoldsEachOnce(s.projects);
      FreshDropIsShown(Base(s.projects), s.stored, e.id, e.status, e.index);
    }
  }

  /** Over any run of revalidations and drops, the board shows each project the server returns exactly once. */
  lemma BoardShowsEachOnce(projects: seq<Project>, events: seq<Event>)
    requires UniqueProjects(projects)
    requires forall i :: 0 <= i < |events| && events[i].Revalidate? ==> UniqueProjects(events[i].projects)
    ensures var s := After(Session(projects, None), events);
      && NoRepeats(Rendered(s))
      && (forall id :: id in AllIds(Rendered(s)) <==> Known(s.projects, id))
      && (forall id :: Known(s.projects, id) <==> StatusOf(Rendered(s), id).Some?)
  {
    SessionStaysOk(Session(projects, None), events);
    var s := After(Session(projects, None), events);
    BaseHoldsEachOnce(s.projects);
    ReconciledHoldsEachOnce(Base(s.projects), s.stored);
    forall id
      ensures id in AllIds(Rendered(s)) <==> StatusOf(Rendered(s), id).Some?
    {
      StatusOfFinds(Rendered(s), id);
    }
  }

  lemma StatusOfFinds(columns: ColumnMap, id: Id)
    ensures id in AllIds(columns) <==> StatusOf(columns, id).Some?
    ensures StatusOf(columns, id).Some? ==> id in columns[StatusOf(columns, id).value]
  {
    if id in AllIds(columns) {
      var s: ProjectStatus :| id in columns[s];
      EveryStatusListed(s);
    }
  }
}
