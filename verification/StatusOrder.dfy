/** The status editor: the drag list, the order it sends, the list drawn at once and the list the server stores. */
module StatusOrder {
  import opened Lists
  import opened Prelude
  import opened Sorting

  type Id = string

  const POSITION_STEP := 10

  /** Declaration order is display order, in the enum as in the list. */
  datatype Group = Todo | InProgress | Complete

  datatype Status = Status(id: Id, projectId: Id, name: string, group: Group, position: int, createdAt: int)

  datatype OrderEntry = Header(group: Group) | Item(status: Status)

  /** One line of the order sent: a status and the group it goes to. */
  datatype Placing = Placing(id: Id, group: Group)

  function Rank(g: Group): int {
    match g
    case Todo => 0
    case InProgress => 1
    case Complete => 2
  }

  function InGroup(g: Group): Status -> bool {
    (status: Status) => status.group == g
  }

  function Items(statuses: seq<Status>): seq<OrderEntry> {
    seq(|statuses|, i requires 0 <= i < |statuses| => Item(statuses[i]))
  }

  function Section(statuses: seq<Status>, g: Group): seq<OrderEntry> {
    [Header(g)] + Items(Filter(statuses, InGroup(g)))
  }

  function ToEntries(statuses: seq<Status>): seq<OrderEntry> {
    Section(statuses, Todo) + Section(statuses, InProgress) + Section(statuses, Complete)
  }

  /** The statuses below the headers, each with the nearest header above it; `above` stands for what came before. */
  ghost function OrderOf(entries: seq<OrderEntry>, above: Group): seq<Placing> {
    if entries == [] then []
    else match entries[0]
         case Header(g) => OrderOf(entries[1..], g)
         case Item(status) => [Placing(status.id, above)] + OrderOf(entries[1..], above)
  }

  method FromEntries(entries: seq<OrderEntry>) returns (order: seq<Placing>)
    ensures order == OrderOf(entries, Todo)
  {
    var group := Todo;
    order := [];
    for i := 0 to |entries|
      invariant order + OrderOf(entries[i..], group) == OrderOf(entries, Todo)
    {
      assert entries[i..][1..] == entries[i + 1..];
      match entries[i] {
        case Header(g) =>
          group := g;
        case Item(status) =>
          assert order + OrderOf(entries[i..], group)
              == (order + [Placing(status.id, group)]) + OrderOf(entries[i + 1..], group);
          order := order + [Placing(status.id, group)];
      }
    }
    assert entries[|entries|..] == [];
  }

  // ---- Positions ----

  /** How many of the first `k` lines go to the group. */
  function CountUpTo(order: seq<Placing>, k: nat, g: Group): nat
    requires k <= |order|
  {
    if k == 0 then 0 else CountUpTo(order, k - 1, g) + (if order[k - 1].group == g then 1 else 0)
  }

  function PositionAt(order: seq<Placing>, i: nat): int
    requires i < |order|
  {
    CountUpTo(order, i + 1, order[i].group) * POSITION_STEP
  }

  /** The last of the first `k` lines with the id, or -1. */
  function PlaceOf(order: seq<Placing>, k: nat, id: Id): (i: int)
    requires k <= |order|
    ensures -1 <= i < k && (i >= 0 ==> order[i].id == id)
    ensures i == -1 ==> forall j :: 0 <= j < k ==> order[j].id != id
  {
    if k == 0 then -1 else if order[k - 1].id == id then k - 1 else PlaceOf(order, k - 1, id)
  }

  /** A status as the first `k` lines of the order leave it. */
  function Placed(status: Status, order: seq<Placing>, k: nat): Status
    requires k <= |order|
  {
    var i := PlaceOf(order, k, status.id);
    if i < 0 then status else status.(group := order[i].group, position := PositionAt(order, i))
  }

  /** `new Map(statuses.map(...))`: a later status with the same id replaces an earlier one. */
  function ById(statuses: seq<Status>, id: Id): Option<Status> {
    if statuses == [] then None
    else if statuses[|statuses| - 1].id == id then Some(statuses[|statuses| - 1])
    else ById(statuses[..|statuses| - 1], id)
  }

  function Known(statuses: seq<Status>): Placing -> bool {
    (line: Placing) => ById(statuses, line.id).Some?
  }

  /** The list an order stands for: unknown ids take no place and no position. */
  ghost function Applied(statuses: seq<Status>, order: seq<Placing>): seq<Status> {
    var known := Filter(order, Known(statuses));
    seq(|known|, i requires 0 <= i < |known| => AppliedAt(statuses, known, i))
  }

  ghost function AppliedAt(statuses: seq<Status>, known: seq<Placing>, i: nat): Status
    requires i < |known|
  {
    var found := ById(statuses, known[i].id);
    if found.None? then Status("", "", "", Todo, 0, 0)
    else found.value.(group := known[i].group, position := PositionAt(known, i))
  }

  method ApplyOrder(statuses: seq<Status>, order: seq<Placing>) returns (list: seq<Status>)
    ensures list == Applied(statuses, order)
  {
    var counts: map<Group, nat> := map[];
    list := [];
    ghost var known := [];
    for i := 0 to |order|
      invariant known == Filter(order[..i], Known(statuses))
      invariant |list| == |known|
      invariant forall j :: 0 <= j < |known| ==> list[j] == AppliedAt(statuses, known, j)
      invariant forall g: Group :: (if g in counts then counts[g] else 0) == CountUpTo(known, |known|, g)
    {
      var line := order[i];
      KnownStep(statuses, order, i);
      var status := ById(statuses, line.id);
      if status.Some? {
        var index := (if line.group in counts then counts[line.group] else 0) + 1;
        counts := counts[line.group := index];
        ghost var longer := known + [line];
        Longer(known, line);
        forall j | 0 <= j < |known|
          ensures AppliedAt(statuses, longer, j) == AppliedAt(statuses, known, j)
        {
          LongerPosition(known, line, j);
        }
        list := list + [status.value.(group := line.group, position := index * POSITION_STEP)];
        known := longer;
      }
    }
    assert order[..|order|] == order;
  }

  lemma KnownStep(statuses: seq<Status>, order: seq<Placing>, i: nat)
    requires i < |order|
    ensures Filter(order[..i + 1], Known(statuses)) ==
            Filter(order[..i], Known(statuses)) + (if ById(statuses, order[i].id).Some? then [order[i]] else [])
  {
    assert order[..i + 1] == order[..i] + [order[i]];
    FilterAppend(order[..i], [order[i]], Known(statuses));
    assert [order[i]][1..] == [];
  }

  lemma Longer(order: seq<Placing>, line: Placing)
    ensures forall g ::
      CountUpTo(order + [line], |order| + 1, g) == CountUpTo(order, |order|, g) + (if line.group == g then 1 else 0)
  {
    forall g
      ensures CountUpTo(order + [line], |order| + 1, g) == CountUpTo(order, |order|, g) + (if line.group == g then 1 else 0)
    {
      SamePrefix(order, line, |order|, g);
    }
  }

  lemma {:induction false} SamePrefix(order: seq<Placing>, line: Placing, k: nat, g: Group)
    requires k <= |order|
    ensures CountUpTo(order + [line], k, g) == CountUpTo(order, k, g)
  {
    if k > 0 {
      SamePrefix(order, line, k - 1, g);
      assert (order + [line])[k - 1] == order[k - 1];
    }
  }

  lemma LongerPosition(order: seq<Placing>, line: Placing, i: nat)
    requires i < |order|
    ensures PositionAt(order + [line], i) == PositionAt(order, i)
  {
    SamePrefix(order, line, i + 1, order[i].group);
  }

  // ---- Orders ----

  /** `sortStatuses`: group order, then position. */
  function ByGroup(): (Status, Status) -> bool {
    (a: Status, b: Status) => Rank(a.group) < Rank(b.group) || (a.group == b.group && a.position <= b.position)
  }

  /** `STATUS_ORDER`: the same, then creation time. */
  function ByGroupThenAge(): (Status, Status) -> bool {
    (a: Status, b: Status) =>
      Rank(a.group) < Rank(b.group)
      || (a.group == b.group && (a.position < b.position || (a.position == b.position && a.createdAt <= b.createdAt)))
  }

  function SortStatuses(statuses: seq<Status>): seq<Status> {
    Sort(statuses, ByGroup())
  }

  function OfProject(projectId: Id): Status -> bool {
    (status: Status) => status.projectId == projectId
  }

  function FindStatuses(rows: seq<Status>, projectId: Id): seq<Status> {
    Sort(Filter(rows, OfProject(projectId)), ByGroupThenAge())
  }

  function IdsOf(order: seq<Placing>): set<Id> {
    set line | line in order :: line.id
  }

  function StatusIds(statuses: seq<Status>): set<Id> {
    set status | status in statuses :: status.id
  }

  /** Every status exactly once: as many lines, no line twice, no line unknown. */
  predicate IsComplete(current: seq<Status>, order: seq<Placing>) {
    && |order| == |current|
    && |IdsOf(order)| == |order|
    && (forall i :: 0 <= i < |order| ==> order[i].id in StatusIds(current))
  }

  ghost function Rewritten(rows: seq<Status>, order: seq<Placing>): seq<Status> {
    seq(|rows|, i requires 0 <= i < |rows| => Placed(rows[i], order, |order|))
  }

  /** The defaults as the project's own rows. */
  function Owned(defaults: seq<Status>, projectId: Id): seq<Status> {
    seq(|defaults|, i requires 0 <= i < |defaults| => defaults[i].(projectId := projectId))
  }

  /** The rows once the project has any: the defaults are added to an empty project. */
  function WithDefaults(rows: seq<Status>, projectId: Id, defaults: seq<Status>): seq<Status> {
    if Filter(rows, OfProject(projectId)) == [] then rows + Owned(defaults, projectId) else rows
  }

  lemma ListedIsStored(rows: seq<Status>, projectId: Id)
    ensures StatusIds(FindStatuses(rows, projectId)) <= StatusIds(rows)
  {
    var wanted := Filter(rows, OfProject(projectId));
    GroupOrders();
    SortSorts(wanted, ByGroupThenAge());
    FilterMembers(rows, OfProject(projectId));
    forall s | s in FindStatuses(rows, projectId)
      ensures s in rows
    {
      assert s in multiset(wanted);
    }
  }

  lemma ProjectIsEmpty(rows: seq<Status>, projectId: Id)
    ensures Filter(rows, OfProject(projectId)) == [] <==> forall s :: s in rows ==> s.projectId != projectId
  {
    FilterMembers(rows, OfProject(projectId));
    if forall s :: s in rows ==> s.projectId != projectId {
      FilterNone(rows, OfProject(projectId));
    }
    if s :| s in rows && s.projectId == projectId {
      assert s in Filter(rows, OfProject(projectId));
    }
  }

  datatype Refusal = SendEveryStatusExactlyOnce

  class TaskStatuses {
    var rows: seq<Status>

    constructor (stored: seq<Status>)
      ensures rows == stored
    {
      rows := stored;
    }

    method EnsureDefaults(projectId: Id, defaults: seq<Status>)
      modifies this
      ensures rows == WithDefaults(old(rows), projectId, defaults)
      ensures (exists s :: s in old(rows) && s.projectId == projectId) ==> rows == old(rows)
      ensures (forall s :: s in old(rows) ==> s.projectId != projectId) ==>
                && |rows| == |old(rows)| + |defaults| && rows[..|old(rows)|] == old(rows)
                && forall i :: 0 <= i < |defaults| ==>
                     rows[|old(rows)| + i] == defaults[i].(projectId := projectId)
    {
      hide Filter;
      ProjectIsEmpty(rows, projectId);
      if Filter(rows, OfProject(projectId)) == [] {
        rows := rows + Owned(defaults, projectId);
      }
    }

    /** One row's group and position; a missing row makes the update throw. */
    method Update(id: Id, group: Group, position: int) returns (updated: bool)
      modifies this
      ensures updated <==> id in StatusIds(old(rows))
      ensures |rows| == |old(rows)|
      ensures forall i :: 0 <= i < |rows| ==>
        rows[i] == if old(rows)[i].id == id then old(rows)[i].(group := group, position := position) else old(rows)[i]
    {
      updated := id in StatusIds(rows);
      rows := seq(|rows|, i requires 0 <= i < |rows| reads this =>
        if rows[i].id == id then rows[i].(group := group, position := position) else rows[i]);
    }

    /** The repository's transaction: every line's row, one after another; a missing row undoes them all. */
    method RewriteAll(entries: seq<Placing>, positions: seq<int>) returns (committed: bool)
      requires |positions| == |entries|
      requires forall j :: 0 <= j < |entries| ==> positions[j] == PositionAt(entries, j)
      modifies this
      ensures committed <==> IdsOf(entries) <= StatusIds(old(rows))
      ensures rows == if committed then Rewritten(old(rows), entries) else old(rows)
    {
      hide PositionAt, Placed, StatusIds, IdsOf;
      var before := rows;
      NothingPlaced(before, entries);
      for k := 0 to |entries|
        invariant |rows| == |before|
        invariant forall i :: 0 <= i < |rows| ==> rows[i] == Placed(before[i], entries, k)
        invariant forall j :: 0 <= j < k ==> entries[j].id in StatusIds(before)
      {
        PlacedIds(before, rows, entries, k);
        var updated := Update(entries[k].id, entries[k].group, positions[k]);
        if !updated {
          LineIsListed(entries, k);
          rows := before;
          return false;
        }
        forall i | 0 <= i < |rows|
          ensures rows[i] == Placed(before[i], entries, k + 1)
        {
          OneLineMore(before[i], entries, k);
        }
      }
      AllListed(entries, StatusIds(before));
      committed := true;
    }

    method ReorderStatuses(projectId: Id, entries: seq<Placing>, defaults: seq<Status>)
      returns (r: Result<seq<Status>, Refusal>)
      modifies this
      ensures
        var current := WithDefaults(old(rows), projectId, defaults);
        if IsComplete(FindStatuses(current, projectId), entries)
        then rows == WithDefaults(Rewritten(current, entries), projectId, defaults) && r == Ok(FindStatuses(rows, projectId))
        else rows == current && r == Err(SendEveryStatusExactlyOnce)
    {
      EnsureDefaults(projectId, defaults);
      var current := FindStatuses(rows, projectId);
      if !IsComplete(current, entries) {
        return Err(SendEveryStatusExactlyOnce);
      }
      ListedIsStored(rows, projectId);
      var positions := Positions(entries);
      var committed := RewriteAll(entries, positions);
      assert committed;
      EnsureDefaults(projectId, defaults);
      r := Ok(FindStatuses(rows, projectId));
    }
  }

  lemma NothingPlaced(rows: seq<Status>, order: seq<Placing>)
    ensures forall i :: 0 <= i < |rows| ==> rows[i] == Placed(rows[i], order, 0)
  {
  }

  /** The next line rewrites its own row and no other. */
  lemma OneLineMore(status: Status, order: seq<Placing>, k: nat)
    requires k < |order|
    ensures
      var placed := Placed(status, order, k);
      && placed.id == status.id
      && Placed(status, order, k + 1)
         == if placed.id == order[k].id then placed.(group := order[k].group, position := PositionAt(order, k)) else placed
  {
    hide PositionAt;
  }

  lemma LineIsListed(order: seq<Placing>, k: nat)
    requires k < |order|
    ensures order[k].id in IdsOf(order)
  {
  }

  lemma AllListed(order: seq<Placing>, ids: set<Id>)
    requires forall j :: 0 <= j < |order| ==> order[j].id in ids
    ensures IdsOf(order) <= ids
  {
  }

  lemma PlacedIds(before: seq<Status>, rows: seq<Status>, order: seq<Placing>, k: nat)
    requires |rows| == |before| && k <= |order|
    requires forall i :: 0 <= i < |rows| ==> rows[i] == Placed(before[i], order, k)
    ensures StatusIds(rows) == StatusIds(before)
  {
    forall id | id in StatusIds(before)
      ensures id in StatusIds(rows)
    {
      var i :| 0 <= i < |before| && before[i].id == id;
      assert rows[i] in rows && rows[i].id == id;
    }
    forall id | id in StatusIds(rows)
      ensures id in StatusIds(before)
    {
      var i :| 0 <= i < |rows| && rows[i].id == id;
      assert before[i] in before && before[i].id == id;
    }
  }

  /** Each line's place in its group, counted with one running number a group. */
  method Positions(entries: seq<Placing>) returns (positions: seq<int>)
    ensures |positions| == |entries|
    ensures forall j :: 0 <= j < |entries| ==> positions[j] == PositionAt(entries, j)
  {
    var nextInGroup: map<Group, nat> := map[];
    positions := [];
    for i := 0 to |entries|
      invariant |positions| == i
      invariant forall j :: 0 <= j < i ==> positions[j] == PositionAt(entries, j)
      invariant forall g: Group :: (if g in nextInGroup then nextInGroup[g] else 0) == CountUpTo(entries, i, g)
    {
      var group := entries[i].group;
      var next := (if group in nextInGroup then nextInGroup[group] else 0) + 1;
      nextInGroup := nextInGroup[group := next];
      positions := positions + [next * POSITION_STEP];
    }
  }

  // ---- An order is settled exactly when its groups are in order ----

  ghost predicate GroupsInOrder(order: seq<Placing>) {
    forall i, j :: 0 <= i < j < |order| ==> Rank(order[i].group) <= Rank(order[j].group)
  }

  ghost predicate UniqueIds(statuses: seq<Status>) {
    forall i, j :: 0 <= i < j < |statuses| ==> statuses[i].id != statuses[j].id
  }

  lemma {:induction false} CountGrows(order: seq<Placing>, i: nat, j: nat, g: Group)
    requires i <= j <= |order|
    ensures CountUpTo(order, i, g) <= CountUpTo(order, j, g)
    ensures i < j && order[j - 1].group == g ==> CountUpTo(order, i, g) < CountUpTo(order, j, g)
  {
    if i < j {
      CountGrows(order, i, j - 1, g);
    }
  }

  /** Within a group positions grow strictly along the order. */
  lemma PositionsGrow(order: seq<Placing>, i: nat, j: nat)
    requires i < j < |order| && order[i].group == order[j].group
    ensures PositionAt(order, i) < PositionAt(order, j)
  {
    CountGrows(order, i + 1, j + 1, order[i].group);
  }

  lemma {:induction false} ByIdFinds(statuses: seq<Status>, id: Id)
    ensures ById(statuses, id).Some? ==> ById(statuses, id).value in statuses && ById(statuses, id).value.id == id
    ensures ById(statuses, id).Some? <==> id in StatusIds(statuses)
  {
    if statuses != [] && statuses[|statuses| - 1].id != id {
      ByIdFinds(statuses[..|statuses| - 1], id);
      assert statuses == statuses[..|statuses| - 1] + [statuses[|statuses| - 1]];
    }
  }

  lemma AllKnown(statuses: seq<Status>, order: seq<Placing>)
    requires forall i :: 0 <= i < |order| ==> order[i].id in StatusIds(statuses)
    ensures Filter(order, Known(statuses)) == order
    ensures |Applied(statuses, order)| == |order|
    ensures forall i :: 0 <= i < |order| ==> ById(statuses, order[i].id).Some?
  {
    forall line | line in order
      ensures Known(statuses)(line)
    {
      ByIdFinds(statuses, line.id);
    }
    FilterAll(order, Known(statuses));
  }

  /** What the list shows at each place. */
  lemma AppliedIs(statuses: seq<Status>, order: seq<Placing>, i: nat)
    requires forall k :: 0 <= k < |order| ==> order[k].id in StatusIds(statuses)
    requires i < |order|
    ensures
      var list := Applied(statuses, order);
      && |list| == |order|
      && list[i].id == order[i].id && list[i].group == order[i].group && list[i].position == PositionAt(order, i)
      && ById(statuses, order[i].id).Some?
      && list[i] == ById(statuses, order[i].id).value.(group := order[i].group, position := PositionAt(order, i))
  {
    AllKnown(statuses, order);
    ByIdFinds(statuses, order[i].id);
  }

  lemma AppliedOrder(statuses: seq<Status>, order: seq<Placing>, i: nat, j: nat)
    requires forall k :: 0 <= k < |order| ==> order[k].id in StatusIds(statuses)
    requires i < j < |order|
    ensures |Applied(statuses, order)| == |order|
    ensures ByGroup()(Applied(statuses, order)[i], Applied(statuses, order)[j])
            <==> Rank(order[i].group) <= Rank(order[j].group)
  {
    hide PositionAt, Applied;
    AppliedIs(statuses, order, i);
    AppliedIs(statuses, order, j);
    if order[i].group == order[j].group {
      PositionsGrow(order, i, j);
    }
  }

  lemma GroupOrders()
    ensures TotalPreorder(ByGroup()) && TotalPreorder(ByGroupThenAge())
  {
  }

  /** The list drawn at once is already in the order every list draws exactly if its groups are in order. */
  lemma SettledIffGroupsInOrder(statuses: seq<Status>, order: seq<Placing>)
    requires forall k :: 0 <= k < |order| ==> order[k].id in StatusIds(statuses)
    ensures SortStatuses(Applied(statuses, order)) == Applied(statuses, order) <==> GroupsInOrder(order)
  {
    hide Applied, PositionAt, ByGroup;
    var list := Applied(statuses, order);
    AllKnownLength(statuses, order);
    GroupOrders();
    SortSorts(list, ByGroup());
    forall i, j | 0 <= i < j < |order|
      ensures ByGroup()(list[i], list[j]) <==> Rank(order[i].group) <= Rank(order[j].group)
    {
      AppliedOrder(statuses, order, i, j);
    }
    if GroupsInOrder(order) {
      SortFixesSorted(list, ByGroup());
    }
  }

  lemma AllKnownLength(statuses: seq<Status>, order: seq<Placing>)
    requires forall k :: 0 <= k < |order| ==> order[k].id in StatusIds(statuses)
    ensures |Applied(statuses, order)| == |order|
  {
    AllKnown(statuses, order);
  }

  // ---- Positions, completeness and the listing, in terms of the lines and the rows ----

  lemma {:induction false} CountInTerms(order: seq<Placing>, k: nat, g: Group)
    requires k <= |order|
    ensures CountUpTo(order, k, g) == |set j: nat | j < k && order[j].group == g|
    decreases k
  {
    if k > 0 {
      CountInTerms(order, k - 1, g);
      var before, all := (set j: nat | j < k - 1 && order[j].group == g), (set j: nat | j < k && order[j].group == g);
      OneMorePlace(before, all, k - 1, order[k - 1].group == g);
    }
  }

  /** The number of lines of the same group down to this one, times ten. */
  lemma PositionInTerms(order: seq<Placing>, i: nat)
    requires i < |order|
    ensures PositionAt(order, i) == 10 * |set j: nat | j < i + 1 && order[j].group == order[i].group|
  {
    CountInTerms(order, i + 1, order[i].group);
  }

  /** What the reorder makes of each row: the row a line names takes the line's group and its place in it. */
  lemma RewrittenInTerms(rows: seq<Status>, order: seq<Placing>, i: nat)
    requires NoLineTwice(order) && i < |rows|
    ensures |Rewritten(rows, order)| == |rows|
    ensures forall k :: 0 <= k < |order| && order[k].id == rows[i].id ==>
      Rewritten(rows, order)[i] ==
      rows[i].(group := order[k].group, position := 10 * |set j: nat | j < k + 1 && order[j].group == order[k].group|)
    ensures (forall k :: 0 <= k < |order| ==> order[k].id != rows[i].id) ==> Rewritten(rows, order)[i] == rows[i]
  {
    hide PositionAt;
    var place := PlaceOf(order, |order|, rows[i].id);
    if place >= 0 {
      PositionInTerms(order, place);
    }
  }

  ghost predicate EveryStatusHasALine(current: seq<Status>, order: seq<Placing>) {
    forall s :: s in current ==> exists i :: 0 <= i < |order| && order[i].id == s.id
  }

  ghost predicate EveryLineHasAStatus(current: seq<Status>, order: seq<Placing>) {
    forall i :: 0 <= i < |order| ==> exists s :: s in current && s.id == order[i].id
  }

  lemma LinesAndIds(current: seq<Status>, order: seq<Placing>)
    ensures EveryStatusHasALine(current, order) <==> StatusIds(current) <= IdsOf(order)
    ensures EveryLineHasAStatus(current, order) <==> IdsOf(order) <= StatusIds(current)
    ensures EveryLineHasAStatus(current, order) <==> forall i :: 0 <= i < |order| ==> order[i].id in StatusIds(current)
  {
    if EveryStatusHasALine(current, order) {
      forall id | id in StatusIds(current)
        ensures id in IdsOf(order)
      {
        var s :| s in current && s.id == id;
        var i :| 0 <= i < |order| && order[i].id == s.id;
        LineIsListed(order, i);
      }
    }
    if StatusIds(current) <= IdsOf(order) {
      forall s | s in current
        ensures exists i :: 0 <= i < |order| && order[i].id == s.id
      {
        assert s.id in StatusIds(current);
      }
    }
    forall i | 0 <= i < |order|
      ensures order[i].id in IdsOf(order)
    {
      LineIsListed(order, i);
    }
  }

  /** Complete: every status of the list on exactly one line, and nothing else on any. */
  lemma CompleteInTerms(current: seq<Status>, order: seq<Placing>)
    requires UniqueIds(current)
    ensures IsComplete(current, order)
            <==> NoLineTwice(order) && EveryStatusHasALine(current, order) && EveryLineHasAStatus(current, order)
  {
    hide NoLineTwice, EveryStatusHasALine, EveryLineHasAStatus, IdsOf, StatusIds, UniqueIds;
    LineIdsCount(order);
    StatusIdsCount(current);
    LinesAndIds(current, order);
    if IsComplete(current, order) {
      CompleteNamesAll(current, order);
    }
    if NoLineTwice(order) && EveryStatusHasALine(current, order) && EveryLineHasAStatus(current, order) {
      assert IdsOf(order) == StatusIds(current);
    }
  }

  /** Todo, then in progress, then complete; within a group by position. */
  ghost predicate GroupsAscend(a: Status, b: Status) {
    && (a.group == Complete ==> b.group == Complete)
    && (a.group == InProgress ==> b.group != Todo)
    && (a.group == b.group ==> a.position <= b.position)
  }

  /** The listing: exactly the project's rows, by group, then position, then age. */
  lemma ListedInTerms(rows: seq<Status>, projectId: Id)
    ensures
      var list := FindStatuses(rows, projectId);
      && (forall s: Status :: multiset(list)[s] == if s.projectId == projectId then multiset(rows)[s] else 0)
      && (forall i, j :: 0 <= i < j < |list| ==>
            && GroupsAscend(list[i], list[j])
            && (list[i].group == list[j].group && list[i].position == list[j].position ==>
                  list[i].createdAt <= list[j].createdAt))
  {
    var wanted, list := Filter(rows, OfProject(projectId)), FindStatuses(rows, projectId);
    GroupOrders();
    SortSorts(wanted, ByGroupThenAge());
    forall s: Status
      ensures multiset(list)[s] == if s.projectId == projectId then multiset(rows)[s] else 0
    {
      FilterCounts(rows, OfProject(projectId), s);
    }
    forall i, j | 0 <= i < j < |list|
      ensures GroupsAscend(list[i], list[j])
      ensures list[i].group == list[j].group && list[i].position == list[j].position ==>
                list[i].createdAt <= list[j].createdAt
    {
      assert ByGroupThenAge()(list[i], list[j]);
    }
  }

  /** The list every screen draws: the same statuses, by group, then position. */
  lemma DrawnInTerms(statuses: seq<Status>)
    ensures
      var list := SortStatuses(statuses);
      && multiset(list) == multiset(statuses)
      && forall i, j :: 0 <= i < j < |list| ==> GroupsAscend(list[i], list[j])
  {
    var list := SortStatuses(statuses);
    GroupOrders();
    SortSorts(statuses, ByGroup());
    forall i, j | 0 <= i < j < |list|
      ensures GroupsAscend(list[i], list[j])
    {
      assert ByGroup()(list[i], list[j]);
    }
  }

  /** What `applyOrder` draws for an order of known lines: each line's status, in its group and its place there. */
  lemma AppliedInTerms(statuses: seq<Status>, order: seq<Placing>, i: nat)
    requires UniqueIds(statuses) && i < |order|
    requires forall k :: 0 <= k < |order| ==> exists s :: s in statuses && s.id == order[k].id
    ensures |Applied(statuses, order)| == |order|
    ensures forall s :: s in statuses && s.id == order[i].id ==>
      Applied(statuses, order)[i] ==
      s.(group := order[i].group, position := 10 * |set j: nat | j < i + 1 && order[j].group == order[i].group|)
  {
    hide PositionAt, Applied;
    assert forall k :: 0 <= k < |order| ==> order[k].id in StatusIds(statuses);
    AppliedIs(statuses, order, i);
    PositionInTerms(order, i);
    ByIdFinds(statuses, order[i].id);
  }

  /** Lines that name no status leave no trace: the others are drawn as if they came alone. */
  lemma UnknownLinesAreSkipped(statuses: seq<Status>, order: seq<Placing>)
    ensures Applied(statuses, order) == Applied(statuses, Filter(order, Known(statuses)))
    ensures forall line :: Known(statuses)(line) <==> exists s :: s in statuses && s.id == line.id
  {
    FilterStronger(order, Known(statuses), Known(statuses));
    forall line: Placing
      ensures Known(statuses)(line) <==> exists s :: s in statuses && s.id == line.id
    {
      ByIdFinds(statuses, line.id);
    }
  }

  lemma ListedMembers(rows: seq<Status>, projectId: Id)
    ensures forall s :: s in FindStatuses(rows, projectId) <==> s in rows && s.projectId == projectId
  {
    var wanted := Filter(rows, OfProject(projectId));
    GroupOrders();
    SortSorts(wanted, ByGroupThenAge());
    FilterMembers(rows, OfProject(projectId));
    forall s: Status
      ensures s in FindStatuses(rows, projectId) <==> s in wanted
    {
      assert s in multiset(FindStatuses(rows, projectId)) <==> s in multiset(wanted);
    }
  }

  /** An empty project then lists its own defaults, and nothing else. */
  lemma EmptyProjectListsDefaults(rows: seq<Status>, projectId: Id, defaults: seq<Status>)
    requires forall r :: r in rows ==> r.projectId != projectId
    ensures
      forall s :: s in FindStatuses(WithDefaults(rows, projectId, defaults), projectId)
                  <==> exists d :: d in defaults && s == d.(projectId := projectId)
  {
    hide FindStatuses;
    var added := Owned(defaults, projectId);
    FilterNone(rows, OfProject(projectId));
    ListedMembers(rows + added, projectId);
    forall s
      ensures s in added <==> exists d :: d in defaults && s == d.(projectId := projectId)
    {
      if d :| d in defaults && s == d.(projectId := projectId) {
        var i :| 0 <= i < |defaults| && defaults[i] == d;
        assert added[i] == s;
      }
    }
  }

  /** No other project's list changes. */
  lemma OtherListsStay(rows: seq<Status>, projectId: Id, defaults: seq<Status>, other: Id)
    requires other != projectId
    ensures FindStatuses(WithDefaults(rows, projectId, defaults), other) == FindStatuses(rows, other)
  {
    var added := Owned(defaults, projectId);
    FilterAppend(rows, added, OfProject(other));
    FilterNone(added, OfProject(other));
    assert Filter(rows, OfProject(other)) + [] == Filter(rows, OfProject(other));
  }

  // ---- The editor's rearrangements ----

  /** The headers keep their order; they cannot be picked up. */
  ghost predicate HeadersInOrder(entries: seq<OrderEntry>) {
    forall i, j :: 0 <= i < j < |entries| && entries[i].Header? && entries[j].Header? ==>
      Rank(entries[i].group) <= Rank(entries[j].group)
  }

  lemma {:induction false} OrderedHeadersOrderedGroups(entries: seq<OrderEntry>, above: Group)
    requires HeadersInOrder(entries)
    requires forall e :: e in entries && e.Header? ==> Rank(above) <= Rank(e.group)
    ensures GroupsInOrder(OrderOf(entries, above))
    ensures forall line :: line in OrderOf(entries, above) ==> Rank(above) <= Rank(line.group)
  {
    if entries != [] {
      var next := if entries[0].Header? then entries[0].group else above;
      assert entries[0] in entries;
      forall e | e in entries[1..] && e.Header?
        ensures Rank(next) <= Rank(e.group)
      {
        var j :| 0 <= j < |entries[1..]| && entries[1..][j] == e;
        assert entries[j + 1] == e;
      }
      OrderedHeadersOrderedGroups(entries[1..], next);
    }
  }

  /** The statuses among the entries. */
  ghost function StatusesIn(entries: seq<OrderEntry>): seq<Status> {
    if entries == [] then []
    else if entries[0].Item? then [entries[0].status] + StatusesIn(entries[1..])
    else StatusesIn(entries[1..])
  }

  lemma {:induction false} StatusesCount(entries: seq<OrderEntry>, status: Status)
    ensures multiset(StatusesIn(entries))[status] == multiset(entries)[Item(status)]
  {
    if entries != [] {
      StatusesCount(entries[1..], status);
      assert entries == [entries[0]] + entries[1..];
    }
  }

  lemma {:induction false} OrderNamesStatuses(entries: seq<OrderEntry>, above: Group)
    ensures |OrderOf(entries, above)| == |StatusesIn(entries)|
    ensures forall i :: 0 <= i < |OrderOf(entries, above)| ==> OrderOf(entries, above)[i].id == StatusesIn(entries)[i].id
  {
    if entries != [] {
      OrderNamesStatuses(entries[1..], if entries[0].Header? then entries[0].group else above);
    }
  }

  lemma {:induction false} ItemsCount(statuses: seq<Status>, status: Status)
    ensures multiset(Items(statuses))[Item(status)] == multiset(statuses)[status]
  {
    if statuses != [] {
      ItemsCount(statuses[1..], status);
      assert statuses == [statuses[0]] + statuses[1..];
      assert Items(statuses) == [Item(statuses[0])] + Items(statuses[1..]);
    }
  }

  lemma EntriesCount(statuses: seq<Status>, status: Status)
    ensures multiset(ToEntries(statuses))[Item(status)] == multiset(statuses)[status]
  {
    SectionCount(statuses, Todo, status);
    SectionCount(statuses, InProgress, status);
    SectionCount(statuses, Complete, status);
  }

  lemma SectionCount(statuses: seq<Status>, g: Group, status: Status)
    ensures multiset(Section(statuses, g))[Item(status)] == if status.group == g then multiset(statuses)[status] else 0
  {
    ItemsCount(Filter(statuses, InGroup(g)), status);
    FilterCounts(statuses, InGroup(g), status);
  }

  /** A rearranged list holds the same statuses. */
  lemma RearrangedStatuses(statuses: seq<Status>, entries: seq<OrderEntry>)
    requires multiset(entries) == multiset(ToEntries(statuses))
    ensures multiset(StatusesIn(entries)) == multiset(statuses)
    ensures |StatusesIn(entries)| == |statuses|
  {
    hide ToEntries, StatusesIn;
    forall status
      ensures multiset(StatusesIn(entries))[status] == multiset(statuses)[status]
    {
      StatusesCount(entries, status);
      EntriesCount(statuses, status);
    }
    assert multiset(StatusesIn(entries)) == multiset(statuses);
    SameSize(StatusesIn(entries), statuses);
  }

  lemma SameSize<T>(a: seq<T>, b: seq<T>)
    requires multiset(a) == multiset(b)
    ensures |a| == |b|
  {
    assert |multiset(a)| == |a| && |multiset(b)| == |b|;
  }

  ghost predicate NoLineTwice(order: seq<Placing>) {
    forall i, j :: 0 <= i < j < |order| ==> order[i].id != order[j].id
  }

  lemma FirstLineId(order: seq<Placing>)
    requires order != []
    ensures IdsOf(order) == {order[0].id} + IdsOf(order[1..])
  {
    assert order == [order[0]] + order[1..];
  }

  lemma FirstLineTwice(order: seq<Placing>)
    requires order != []
    ensures NoLineTwice(order) <==> NoLineTwice(order[1..]) && order[0].id !in IdsOf(order[1..])
  {
    var tail := order[1..];
    forall j | 0 <= j < |tail|
      ensures tail[j].id in IdsOf(tail) && order[j + 1] == tail[j]
    {
      assert tail[j] in tail;
    }
    if order[0].id in IdsOf(tail) {
      var j :| 0 <= j < |tail| && tail[j].id == order[0].id;
      assert order[j + 1].id == order[0].id;
    } else if NoLineTwice(tail) {
      forall i, j | 0 <= i < j < |order|
        ensures order[i].id != order[j].id
      {
        assert order[j] == tail[j - 1];
        assert i > 0 ==> order[i] == tail[i - 1];
      }
    }
  }

  lemma {:induction false} LineIdsCount(order: seq<Placing>)
    ensures |IdsOf(order)| <= |order|
    ensures |IdsOf(order)| == |order| <==> NoLineTwice(order)
  {
    if order != [] {
      hide IdsOf, NoLineTwice;
      FirstLineId(order);
      FirstLineTwice(order);
      LineIdsCount(order[1..]);
      if order[0].id in IdsOf(order[1..]) {
        assert IdsOf(order) == IdsOf(order[1..]);
      }
    }
  }

  lemma {:induction false} StatusIdsCount(statuses: seq<Status>)
    requires UniqueIds(statuses)
    ensures |StatusIds(statuses)| == |statuses|
  {
    if statuses != [] {
      var tail := statuses[1..];
      StatusIdsCount(tail);
      assert statuses == [statuses[0]] + tail;
      assert StatusIds(statuses) == {statuses[0].id} + StatusIds(tail);
    }
  }

  lemma SameIdSameStatus(statuses: seq<Status>, a: Status, b: Status)
    requires UniqueIds(statuses) && a in statuses && b in statuses && a.id == b.id
    ensures a == b
  {
  }

  lemma DifferentIds(statuses: seq<Status>, a: Status, b: Status)
    requires UniqueIds(statuses) && a in statuses && b in statuses && a != b
    ensures a.id != b.id
  {
  }

  lemma UniqueIdsDistinct(statuses: seq<Status>)
    requires UniqueIds(statuses)
    ensures Distinct(statuses)
  {
  }

  /** Whatever the rearrangement, the order it sends names every status exactly once. */
  lemma RearrangementIsComplete(statuses: seq<Status>, entries: seq<OrderEntry>)
    requires UniqueIds(statuses) && multiset(entries) == multiset(ToEntries(statuses))
    ensures IsComplete(statuses, OrderOf(entries, Todo))
  {
    hide ToEntries, OrderOf, StatusesIn;
    var order, inEntries := OrderOf(entries, Todo), StatusesIn(entries);
    RearrangedStatuses(statuses, entries);
    OrderNamesStatuses(entries, Todo);
    UniqueIdsDistinct(statuses);
    PermutationDistinct(statuses, inEntries);
    forall i, j | 0 <= i < j < |order|
      ensures order[i].id != order[j].id
    {
      DifferentIds(statuses, inEntries[i], inEntries[j]);
    }
    LineIdsCount(order);
    assert forall i :: 0 <= i < |order| ==> inEntries[i] in statuses && order[i].id == inEntries[i].id;
  }

  // ---- The server lists what the client drew ----

  lemma CurrentMembers(rows: seq<Status>, projectId: Id)
    requires UniqueIds(rows)
    ensures UniqueIds(FindStatuses(rows, projectId))
    ensures forall s :: s in FindStatuses(rows, projectId) <==> s in rows && s.projectId == projectId
  {
    var current, wanted := FindStatuses(rows, projectId), Filter(rows, OfProject(projectId));
    GroupOrders();
    SortSorts(wanted, ByGroupThenAge());
    UniqueIdsDistinct(rows);
    FilterDistinct(rows, OfProject(projectId));
    PermutationDistinct(wanted, current);
    FilterMembers(rows, OfProject(projectId));
    forall i, j | 0 <= i < j < |current|
      ensures current[i].id != current[j].id
    {
      DifferentIds(rows, current[i], current[j]);
    }
  }

  /** A complete order names exactly the project's statuses. */
  lemma CompleteNamesAll(current: seq<Status>, order: seq<Placing>)
    requires UniqueIds(current) && IsComplete(current, order)
    ensures IdsOf(order) == StatusIds(current)
    ensures NoLineTwice(order)
  {
    LineIdsCount(order);
    StatusIdsCount(current);
    var missing := StatusIds(current) - IdsOf(order);
    assert IdsOf(order) <= StatusIds(current);
    assert StatusIds(current) == IdsOf(order) + missing;
    assert |missing| == 0;
  }

  /** A status of the project is drawn as it is stored. */
  lemma DrawnIsStored(current: seq<Status>, order: seq<Placing>, i: nat)
    requires UniqueIds(current) && IsComplete(current, order) && i < |order|
    ensures |Applied(current, order)| == |order| && ById(current, order[i].id).Some?
    ensures Applied(current, order)[i] == Placed(ById(current, order[i].id).value, order, |order|)
  {
    hide PositionAt, Applied, IdsOf;
    AppliedIs(current, order, i);
    CompleteNamesAll(current, order);
    ByIdFinds(current, order[i].id);
    var k := PlaceOf(order, |order|, order[i].id);
    assert k == i;
  }

  lemma RewrittenIds(rows: seq<Status>, order: seq<Placing>)
    requires UniqueIds(rows)
    ensures UniqueIds(Rewritten(rows, order))
    ensures forall s :: s in Rewritten(rows, order) <==> exists r :: r in rows && s == Placed(r, order, |order|)
  {
    var rows' := Rewritten(rows, order);
    forall s | s in rows'
      ensures exists r :: r in rows && s == Placed(r, order, |order|)
    {
      var k :| 0 <= k < |rows'| && rows'[k] == s;
      assert rows[k] in rows && s == Placed(rows[k], order, |order|);
    }
    forall r | r in rows
      ensures Placed(r, order, |order|) in rows'
    {
      var k :| 0 <= k < |rows| && rows[k] == r;
      assert rows'[k] == Placed(r, order, |order|);
    }
  }

  /** The drawn list and the stored one have the same members. */
  lemma DrawnAndStored(rows: seq<Status>, projectId: Id, order: seq<Placing>, s: Status)
    requires UniqueIds(rows) && IsComplete(FindStatuses(rows, projectId), order)
    ensures s in Applied(FindStatuses(rows, projectId), order)
            <==> s in Rewritten(rows, order) && s.projectId == projectId
  {
    hide Applied, Rewritten, FindStatuses, IsComplete, PositionAt, PlaceOf;
    var current := FindStatuses(rows, projectId);
    var list := Applied(current, order);
    CurrentMembers(rows, projectId);
    RewrittenIds(rows, order);
    CompleteOrder(current, order);
    if s in list {
      var i :| 0 <= i < |list| && list[i] == s;
      DrawnIsStored(current, order, i);
      ByIdFinds(current, order[i].id);
    }
    if s in Rewritten(rows, order) && s.projectId == projectId {
      var r :| r in rows && s == Placed(r, order, |order|);
      assert r in current;
      CompleteNamesAll(current, order);
      assert r.id in StatusIds(current);
      var i :| 0 <= i < |order| && order[i].id == r.id;
      DrawnIsStored(current, order, i);
      ByIdFinds(current, r.id);
      SameIdSameStatus(current, r, ById(current, r.id).value);
    }
  }

  lemma CompleteOrder(current: seq<Status>, order: seq<Placing>)
    requires IsComplete(current, order)
    ensures |Applied(current, order)| == |order|
    ensures forall i :: 0 <= i < |order| ==> order[i].id in StatusIds(current)
  {
    AllKnown(current, order);
  }

  lemma DrawnIsDistinct(current: seq<Status>, order: seq<Placing>)
    requires UniqueIds(current) && IsComplete(current, order)
    ensures Distinct(Applied(current, order))
    ensures NoTies(Applied(current, order), ByGroup())
  {
    hide Applied, PositionAt, IdsOf;
    var list := Applied(current, order);
    CompleteOrder(current, order);
    CompleteNamesAll(current, order);
    forall i, j | 0 <= i < j < |list|
      ensures list[i] != list[j] && !(ByGroup()(list[i], list[j]) && ByGroup()(list[j], list[i]))
    {
      AppliedIs(current, order, i);
      AppliedIs(current, order, j);
      if order[i].group == order[j].group {
        PositionsGrow(order, i, j);
      }
    }
  }

  lemma SameMembersSameCounts(a: seq<Status>, b: seq<Status>)
    requires Distinct(a) && Distinct(b)
    requires forall s :: s in a <==> s in b
    ensures multiset(a) == multiset(b)
  {
    forall s
      ensures multiset(a)[s] == multiset(b)[s]
    {
      DistinctCounts(a, s);
      DistinctCounts(b, s);
    }
  }

  lemma TiesNeverMatter(list: seq<Status>)
    requires Sorted(list, ByGroup()) && NoTies(list, ByGroup())
    ensures Sorted(list, ByGroupThenAge()) && NoTies(list, ByGroupThenAge())
  {
    forall i, j | 0 <= i < j < |list|
      ensures ByGroupThenAge()(list[i], list[j])
    {
      assert ByGroup()(list[i], list[j]);
      assert list[i] in list && list[j] in list;
    }
  }

  /** After a complete reorder the server lists, row for row, the sorted list the client drew. */
  lemma ServerListsTheDrawnList(rows: seq<Status>, projectId: Id, order: seq<Placing>)
    requires UniqueIds(rows) && IsComplete(FindStatuses(rows, projectId), order)
    ensures FindStatuses(Rewritten(rows, order), projectId) == SortStatuses(Applied(FindStatuses(rows, projectId), order))
  {
    hide Applied, Rewritten, IsComplete, ByGroup, ByGroupThenAge, Sort, UniqueIds;
    var current := Sort(Filter(rows, OfProject(projectId)), ByGroupThenAge());
    assert current == FindStatuses(rows, projectId);
    var rows', list := Rewritten(rows, order), Applied(current, order);
    var stored := Filter(rows', OfProject(projectId));
    CurrentMembers(rows, projectId);
    RewrittenIds(rows, order);
    UniqueIdsDistinct(rows');
    FilterDistinct(rows', OfProject(projectId));
    FilterMembers(rows', OfProject(projectId));
    DrawnIsDistinct(current, order);
    forall s
      ensures s in list <==> s in stored
    {
      DrawnAndStored(rows, projectId, order, s);
    }
    SameMembersSameCounts(list, stored);
    GroupOrders();
    SortSorts(list, ByGroup());
    PermutationDistinct(list, Sort(list, ByGroup()));
    NoTiesPermuted(list, Sort(list, ByGroup()));
    TiesNeverMatter(Sort(list, ByGroup()));
    SortIs(stored, Sort(list, ByGroup()), ByGroupThenAge());
  }

  lemma NoTiesPermuted(a: seq<Status>, b: seq<Status>)
    requires NoTies(a, ByGroup()) && forall s :: s in a <==> s in b
    ensures NoTies(b, ByGroup())
  {
  }

  /**
   * Any rearrangement that leaves the headers in order is accepted, is drawn
   * settled, and is exactly what the server then lists.
   */
  lemma RearrangedListIsStored(rows: seq<Status>, projectId: Id, entries: seq<OrderEntry>)
    requires UniqueIds(rows)
    requires multiset(entries) == multiset(ToEntries(FindStatuses(rows, projectId)))
    requires HeadersInOrder(entries)
    ensures
      var current, order := FindStatuses(rows, projectId), OrderOf(entries, Todo);
      && IsComplete(current, order)
      && SortStatuses(Applied(current, order)) == Applied(current, order)
      && FindStatuses(Rewritten(rows, order), projectId) == Applied(current, order)
  {
    hide Applied, Rewritten, FindStatuses, SortStatuses, ToEntries, OrderOf, IdsOf;
    var current, order := FindStatuses(rows, projectId), OrderOf(entries, Todo);
    CurrentMembers(rows, projectId);
    RearrangementIsComplete(current, entries);
    OrderedHeadersOrderedGroups(entries, Todo);
    SettledIffGroupsInOrder(current, order);
    ServerListsTheDrawnList(rows, projectId, order);
  }

  /** Sending the same order again is accepted and changes nothing. */
  lemma ReorderAgain(rows: seq<Status>, projectId: Id, order: seq<Placing>)
    requires UniqueIds(rows) && IsComplete(FindStatuses(rows, projectId), order)
    ensures IsComplete(FindStatuses(Rewritten(rows, order), projectId), order)
    ensures Rewritten(Rewritten(rows, order), order) == Rewritten(rows, order)
  {
    hide FindStatuses, PositionAt, Sort, IdsOf;
    var current, rows' := FindStatuses(rows, projectId), Rewritten(rows, order);
    var again, list := FindStatuses(rows', projectId), Applied(current, order);
    ServerListsTheDrawnList(rows, projectId, order);
    CompleteOrder(current, order);
    GroupOrders();
    SortSorts(list, ByGroup());
    forall i | 0 <= i < |order|
      ensures order[i].id in StatusIds(again)
    {
      AppliedIs(current, order, i);
      assert list[i] in multiset(again);
    }
  }

  // ---- Opening the editor and saving ----

  ghost function Lines(statuses: seq<Status>, g: Group): seq<Placing> {
    seq(|statuses|, i requires 0 <= i < |statuses| => Placing(statuses[i].id, g))
  }

  lemma FirstItemOrder(status: Status, rest: seq<OrderEntry>, g: Group)
    ensures OrderOf([Item(status)] + rest, g) == [Placing(status.id, g)] + OrderOf(rest, g)
  {
    assert ([Item(status)] + rest)[1..] == rest;
  }

  lemma FirstItem(statuses: seq<Status>, rest: seq<OrderEntry>, g: Group)
    requires statuses != []
    ensures Items(statuses) + rest == [Item(statuses[0])] + (Items(statuses[1..]) + rest)
    ensures Lines(statuses, g) == [Placing(statuses[0].id, g)] + Lines(statuses[1..], g)
  {
  }

  lemma {:induction false} ItemsOrder(statuses: seq<Status>, rest: seq<OrderEntry>, g: Group)
    ensures OrderOf(Items(statuses) + rest, g) == Lines(statuses, g) + OrderOf(rest, g)
  {
    if statuses == [] {
      assert Items(statuses) + rest == rest;
    } else {
      hide OrderOf, Items, Lines;
      ItemsOrder(statuses[1..], rest, g);
      FirstItem(statuses, rest, g);
      FirstItemOrder(statuses[0], Items(statuses[1..]) + rest, g);
    }
  }

  lemma SectionOrder(statuses: seq<Status>, rest: seq<OrderEntry>, g: Group, above: Group)
    ensures OrderOf(Section(statuses, g) + rest, above) == Lines(Filter(statuses, InGroup(g)), g) + OrderOf(rest, g)
  {
    var items := Items(Filter(statuses, InGroup(g)));
    assert (Section(statuses, g) + rest)[1..] == items + rest;
    ItemsOrder(Filter(statuses, InGroup(g)), rest, g);
  }

  ghost predicate InGroupOrder(statuses: seq<Status>) {
    forall i, j :: 0 <= i < j < |statuses| ==> Rank(statuses[i].group) <= Rank(statuses[j].group)
  }

  ghost function Joined(statuses: seq<Status>): seq<Status> {
    Filter(statuses, InGroup(Todo)) + (Filter(statuses, InGroup(InProgress)) + Filter(statuses, InGroup(Complete)))
  }

  lemma TodoFirst(head: Status, tail: seq<Status>)
    requires head.group == Todo
    ensures Joined([head] + tail) == [head] + Joined(tail)
  {
    hide Filter;
    FilterFirst(head, tail, Todo);
    FilterFirst(head, tail, InProgress);
    FilterFirst(head, tail, Complete);
  }

  lemma InProgressFirst(head: Status, tail: seq<Status>)
    requires head.group == InProgress && Filter(tail, InGroup(Todo)) == []
    ensures Joined([head] + tail) == [head] + Joined(tail)
  {
    hide Filter;
    FilterFirst(head, tail, Todo);
    FilterFirst(head, tail, InProgress);
    FilterFirst(head, tail, Complete);
    Regroup([head], Filter(tail, InGroup(InProgress)), Filter(tail, InGroup(Complete)));
  }

  lemma Regroup<T>(a: seq<T>, b: seq<T>, c: seq<T>)
    ensures [] + ((a + b) + c) == a + ([] + (b + c))
  {
  }

  lemma CompleteFirst(head: Status, tail: seq<Status>)
    requires head.group == Complete && Filter(tail, InGroup(Todo)) == [] && Filter(tail, InGroup(InProgress)) == []
    ensures Joined([head] + tail) == [head] + Joined(tail)
  {
    hide Filter;
    FilterFirst(head, tail, Todo);
    FilterFirst(head, tail, InProgress);
    FilterFirst(head, tail, Complete);
  }

  lemma FilterFirst(head: Status, tail: seq<Status>, g: Group)
    ensures Filter([head] + tail, InGroup(g)) ==
            if head.group == g then [head] + Filter(tail, InGroup(g)) else Filter(tail, InGroup(g))
  {
    assert ([head] + tail)[1..] == tail;
  }

  lemma HeadAndTail(statuses: seq<Status>)
    requires statuses != [] && InGroupOrder(statuses)
    ensures statuses == [statuses[0]] + statuses[1..] && InGroupOrder(statuses[1..])
    ensures forall s :: s in statuses[1..] ==> Rank(statuses[0].group) <= Rank(s.group)
  {
  }

  /** A list in group order is its three sections one after the other. */
  lemma {:induction false} SectionsJoin(statuses: seq<Status>)
    requires InGroupOrder(statuses)
    ensures Joined(statuses) == statuses
  {
    if statuses != [] {
      hide Joined, Filter, InGroupOrder;
      var head, tail := statuses[0], statuses[1..];
      HeadAndTail(statuses);
      SectionsJoin(tail);
      match head.group
      case Todo =>
        TodoFirst(head, tail);
      case InProgress =>
        FilterNone(tail, InGroup(Todo));
        InProgressFirst(head, tail);
      case Complete =>
        FilterNone(tail, InGroup(Todo));
        FilterNone(tail, InGroup(InProgress));
        CompleteFirst(head, tail);
    }
  }

  /** Each status in its own group. */
  ghost function OwnLines(statuses: seq<Status>): seq<Placing> {
    seq(|statuses|, i requires 0 <= i < |statuses| => Placing(statuses[i].id, statuses[i].group))
  }

  lemma OwnLinesJoin(a: seq<Status>, b: seq<Status>)
    ensures OwnLines(a + b) == OwnLines(a) + OwnLines(b)
  {
  }

  lemma SectionLines(statuses: seq<Status>, g: Group)
    ensures Lines(Filter(statuses, InGroup(g)), g) == OwnLines(Filter(statuses, InGroup(g)))
  {
    var section := Filter(statuses, InGroup(g));
    FilterMembers(statuses, InGroup(g));
    forall i | 0 <= i < |section|
      ensures section[i].group == g
    {
      assert section[i] in section;
    }
  }

  lemma EntriesOrder(statuses: seq<Status>)
    ensures
      OrderOf(ToEntries(statuses), Todo) ==
      Lines(Filter(statuses, InGroup(Todo)), Todo)
      + (Lines(Filter(statuses, InGroup(InProgress)), InProgress) + Lines(Filter(statuses, InGroup(Complete)), Complete))
  {
    hide Section, Lines, Filter;
    var doing, complete := Section(statuses, InProgress), Section(statuses, Complete);
    assert complete + [] == complete;
    SectionOrder(statuses, [], Complete, InProgress);
    SectionOrder(statuses, complete, InProgress, Todo);
    SectionOrder(statuses, doing + complete, Todo, Todo);
    assert ToEntries(statuses) == Section(statuses, Todo) + (doing + complete);
  }

  /** An untouched editor sends back the list it was opened on, every status in its own group. */
  lemma UntouchedEditorSendsTheList(statuses: seq<Status>)
    requires InGroupOrder(statuses)
    ensures
      OrderOf(ToEntries(statuses), Todo)
      == seq(|statuses|, i requires 0 <= i < |statuses| => Placing(statuses[i].id, statuses[i].group))
  {
    hide ToEntries, OrderOf, Lines, Filter;
    var todo, doing := Filter(statuses, InGroup(Todo)), Filter(statuses, InGroup(InProgress));
    var complete := Filter(statuses, InGroup(Complete));
    SectionsJoin(statuses);
    EntriesOrder(statuses);
    SectionLines(statuses, Todo);
    SectionLines(statuses, InProgress);
    SectionLines(statuses, Complete);
    OwnLinesJoin(doing, complete);
    OwnLinesJoin(todo, doing + complete);
    assert OrderOf(ToEntries(statuses), Todo) == OwnLines(statuses);
  }
}
