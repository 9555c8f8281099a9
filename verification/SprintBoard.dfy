/**
 * The sprint board: three columns ranked by a fractional position, and the
 * drop that writes one row.
 */
module SprintBoard {
  import opened Lists
  import opened Prelude
  import opened Sorting

  datatype Status = Todo | InProgress | Done

  datatype Task = Task(id: string, title: string, status: Status, position: real)

  const STEP: real := 1024.0

  predicate ByPosition(a: Task, b: Task) {
    a.position <= b.position
  }

  function HasStatus(status: Status): Task -> bool {
    (task: Task) => task.status == status
  }

  function OfStatus(tasks: seq<Task>, status: Status): seq<Task> {
    Filter(tasks, HasStatus(status))
  }

  function ColumnTasks(tasks: seq<Task>, status: Status): seq<Task> {
    Sort(OfStatus(tasks, status), ByPosition)
  }

  function PositionBetween(before: Option<real>, after: Option<real>): real {
    if before.Some? && after.Some? then (before.value + after.value) / 2.0
    else if after.Some? then after.value - STEP
    else if before.Some? then before.value + STEP
    else STEP
  }

  /** `list[i]?.position`, which is undefined past either end. */
  function PositionAt(list: seq<Task>, i: int): Option<real> {
    if 0 <= i < |list| then Some(list[i].position) else None
  }

  /** The rank of a card that goes in at `slot`. */
  function RankAt(without: seq<Task>, slot: nat): real {
    PositionBetween(PositionAt(without, slot - 1), PositionAt(without, slot))
  }

  function FindIndex(list: seq<Task>, id: string): int
    ensures -1 <= FindIndex(list, id) < |list|
  {
    if list == [] then -1
    else if list[0].id == id then 0
    else
      var i := FindIndex(list[1..], id);
      if i == -1 then -1 else i + 1
  }

  function OtherThan(id: string): Task -> bool {
    (task: Task) => task.id != id
  }

  function Without(list: seq<Task>, id: string): seq<Task> {
    Filter(list, OtherThan(id))
  }

  /** A column's own id. */
  function ColumnOf(overId: string): Option<Status> {
    if overId == "column-todo" then Some(Todo)
    else if overId == "column-in-progress" then Some(InProgress)
    else if overId == "column-done" then Some(Done)
    else None
  }

  function StatusOfDropTarget(tasks: seq<Task>, overId: string): Option<Status> {
    if ColumnOf(overId).Some? then ColumnOf(overId)
    else
      var i := FindIndex(tasks, overId);
      if i == -1 then None else Some(tasks[i].status)
  }

  function InsertionIndex(column: seq<Task>, without: seq<Task>, taskId: string, overId: string): nat {
    var overIndex := FindIndex(without, overId);
    if overIndex == -1 then |without|
    else
      var fromIndex := FindIndex(column, taskId);
      var toIndex := FindIndex(column, overId);
      if fromIndex != -1 && fromIndex < toIndex then overIndex + 1 else overIndex
  }

  function Rewrite(tasks: seq<Task>, taskId: string, status: Status, position: real): seq<Task> {
    if tasks == [] then []
    else [if tasks[0].id == taskId then tasks[0].(status := status, position := position) else tasks[0]]
         + Rewrite(tasks[1..], taskId, status, position)
  }

  function MoveTaskTo(tasks: seq<Task>, taskId: string, overId: string): seq<Task> {
    if taskId == overId then tasks
    else
      var status := StatusOfDropTarget(tasks, overId);
      if FindIndex(tasks, taskId) == -1 || status.None? then tasks
      else
        var column := ColumnTasks(tasks, status.value);
        var without := Without(column, taskId);
        var insertAt := InsertionIndex(column, without, taskId, overId);
        Rewrite(tasks, taskId, status.value, RankAt(without, insertAt))
  }

  /** The rank a newly composed card takes. */
  function EndOfColumn(tasks: seq<Task>, status: Status): real {
    var column := ColumnTasks(tasks, status);
    PositionBetween(PositionAt(column, |column| - 1), None)
  }

  // ---- The list move a drop stands for ----

  function Ids(list: seq<Task>): seq<string> {
    seq(|list|, i requires 0 <= i < |list| => list[i].id)
  }

  function IndexOf(ids: seq<string>, id: string): int
    ensures -1 <= IndexOf(ids, id) < |ids|
  {
    if ids == [] then -1
    else if ids[0] == id then 0
    else
      var i := IndexOf(ids[1..], id);
      if i == -1 then -1 else i + 1
  }

  function Remove(ids: seq<string>, id: string): seq<string> {
    if ids == [] then []
    else if ids[0] == id then Remove(ids[1..], id)
    else [ids[0]] + Remove(ids[1..], id)
  }

  /** Take `id` out, then put it where `over` stood in the list as it was; with no such row, at the end. */
  ghost function ListMove(ids: seq<string>, id: string, over: string): seq<string> {
    var rest := Remove(ids, id);
    var target := IndexOf(ids, over);
    InsertAt(rest, if target == -1 then |rest| else target, id)
  }

  ghost predicate UniqueIds(list: seq<Task>) {
    forall i, j :: 0 <= i < j < |list| ==> list[i].id != list[j].id
  }

  /** Two cards of one column never share a rank. */
  ghost predicate DistinctRanks(tasks: seq<Task>) {
    forall i, j :: 0 <= i < j < |tasks| && tasks[i].status == tasks[j].status ==>
      tasks[i].position != tasks[j].position
  }

  ghost predicate StrictlyRanked(list: seq<Task>) {
    forall i, j :: 0 <= i < j < |list| ==> list[i].position < list[j].position
  }

  // ---- Facts about the helpers ----

  lemma {:induction false} FindIndexFinds(list: seq<Task>, id: string)
    ensures FindIndex(list, id) == IndexOf(Ids(list), id)
    ensures var i := FindIndex(list, id);
      if i == -1 then forall j :: 0 <= j < |list| ==> list[j].id != id
      else list[i].id == id && forall j :: 0 <= j < i ==> list[j].id != id
  {
    if list != [] {
      assert Ids(list)[1..] == Ids(list[1..]);
      FindIndexFinds(list[1..], id);
    }
  }

  lemma {:induction false} WithoutIds(list: seq<Task>, id: string)
    ensures Ids(Without(list, id)) == Remove(Ids(list), id)
  {
    if list != [] {
      assert Ids(list)[1..] == Ids(list[1..]);
      WithoutIds(list[1..], id);
      if list[0].id != id {
        assert Ids([list[0]] + Without(list[1..], id)) == [list[0].id] + Ids(Without(list[1..], id));
      }
    }
  }

  lemma {:induction false} WithoutKeepsRanks(list: seq<Task>, id: string)
    requires StrictlyRanked(list) && UniqueIds(list)
    ensures StrictlyRanked(Without(list, id)) && UniqueIds(Without(list, id))
  {
    if list != [] {
      var rest := Without(list[1..], id);
      WithoutKeepsRanks(list[1..], id);
      forall j | 0 <= j < |rest|
        ensures list[0].position < rest[j].position && list[0].id != rest[j].id
      {
        FilterMember(list[1..], OtherThan(id), rest[j]);
        var k :| 0 <= k < |list[1..]| && list[1..][k] == rest[j];
      }
    }
  }

  lemma SortsByPosition(s: seq<Task>)
    ensures multiset(Sort(s, ByPosition)) == multiset(s)
    ensures forall i, j :: 0 <= i < j < |Sort(s, ByPosition)| ==>
              Sort(s, ByPosition)[i].position <= Sort(s, ByPosition)[j].position
  {
    SortSorts(s, ByPosition);
    var t := Sort(s, ByPosition);
    forall i, j | 0 <= i < j < |t|
      ensures t[i].position <= t[j].position
    {
      assert ByPosition(t[i], t[j]);
    }
  }

  /** A strictly ranked permutation is what sorting returns. */
  lemma RankedIsSorted(s: seq<Task>, t: seq<Task>)
    requires StrictlyRanked(t) && multiset(s) == multiset(t)
    ensures Sort(s, ByPosition) == t
  {
    SortIs(s, t, ByPosition);
  }

  /** A column is a strictly ranked permutation of the status's cards. */
  lemma ColumnIsRanked(tasks: seq<Task>, status: Status)
    requires UniqueIds(tasks) && DistinctRanks(tasks)
    ensures StrictlyRanked(ColumnTasks(tasks, status)) && UniqueIds(ColumnTasks(tasks, status))
    ensures forall t :: t in ColumnTasks(tasks, status) <==> t in tasks && t.status == status
  {
    var column := ColumnTasks(tasks, status);
    SortsByPosition(OfStatus(tasks, status));
    FilterDistinct(tasks, HasStatus(status));
    PermutationDistinct(OfStatus(tasks, status), column);
    FilterMembers(tasks, HasStatus(status));
    forall i, j | 0 <= i < j < |column|
      ensures column[i].position < column[j].position && column[i].id != column[j].id
    {
      assert column[i] in column && column[j] in column;
      var a :| 0 <= a < |tasks| && tasks[a] == column[i];
      var b :| 0 <= b < |tasks| && tasks[b] == column[j];
    }
  }

  // ---- The drop ----

  /** Only the dragged card changes, and nothing but its column and rank. */
  lemma {:induction false} RewriteTouchesOne(tasks: seq<Task>, id: string, status: Status, position: real)
    ensures var tasks' := Rewrite(tasks, id, status, position);
      && |tasks'| == |tasks|
      && forall i :: 0 <= i < |tasks| ==>
           tasks'[i] == if tasks[i].id == id then tasks[i].(status := status, position := position) else tasks[i]
  {
    if tasks != [] {
      RewriteTouchesOne(tasks[1..], id, status, position);
    }
  }

  /** A column the card is not dropped into loses it and is otherwise the same list. */
  lemma {:induction false} RewriteElsewhere(tasks: seq<Task>, id: string, status: Status, position: real, other: Status)
    requires other != status
    ensures OfStatus(Rewrite(tasks, id, status, position), other) == Without(OfStatus(tasks, other), id)
  {
    if tasks != [] {
      RewriteElsewhere(tasks[1..], id, status, position, other);
    }
  }

  /** The column it is dropped into gains it, in place of the old card of that id. */
  lemma {:induction false} RewriteHere(tasks: seq<Task>, id: string, status: Status, position: real, at: nat)
    returns (slot: nat)
    requires UniqueIds(tasks) && at < |tasks| && tasks[at].id == id
    ensures slot <= |Without(OfStatus(tasks, status), id)|
    ensures OfStatus(Rewrite(tasks, id, status, position), status)
         == InsertAt(Without(OfStatus(tasks, status), id), slot, tasks[at].(status := status, position := position))
  {
    hide Filter;
    var head, rest := tasks[0], tasks[1..];
    var moved := tasks[at].(status := status, position := position);
    if at == 0 {
      RewriteAbsent(rest, id, status, position);
      slot := 0;
      assert tasks == [head] + rest && Rewrite(tasks, id, status, position) == [moved] + rest;
      FirstOfStatus(moved, rest, status);
      FirstWithout(head, rest, status, id);
    } else {
      assert head.id != id && tasks == [head] + rest;
      FirstOfStatus(head, Rewrite(rest, id, status, position), status);
      FirstWithout(head, rest, status, id);
      var below := RewriteHere(rest, id, status, position, at - 1);
      slot := if head.status == status then below + 1 else below;
      InsertAtPrepend(head, Without(OfStatus(rest, status), id), below, moved);
    }
  }

  lemma FirstOfStatus(head: Task, rest: seq<Task>, status: Status)
    ensures OfStatus([head] + rest, status)
         == (if head.status == status then [head] + OfStatus(rest, status) else OfStatus(rest, status))
  {
    assert ([head] + rest)[1..] == rest;
  }

  lemma FirstWithout(head: Task, rest: seq<Task>, status: Status, id: string)
    ensures Without(OfStatus([head] + rest, status), id)
         == (if head.status == status && head.id != id then [head] + Without(OfStatus(rest, status), id)
             else Without(OfStatus(rest, status), id))
  {
    assert ([head] + rest)[1..] == rest;
    assert ([head] + OfStatus(rest, status))[1..] == OfStatus(rest, status);
  }

  lemma {:induction false} RewriteAbsent(tasks: seq<Task>, id: string, status: Status, position: real)
    requires forall j :: 0 <= j < |tasks| ==> tasks[j].id != id
    ensures Rewrite(tasks, id, status, position) == tasks
    ensures Without(OfStatus(tasks, status), id) == OfStatus(tasks, status)
  {
    if tasks != [] {
      RewriteAbsent(tasks[1..], id, status, position);
    }
  }

  lemma {:induction false} WithoutIndex(list: seq<Task>, id: string, over: string)
    requires UniqueIds(list) && id != over
    ensures
      var from, target := FindIndex(list, id), FindIndex(list, over);
      FindIndex(Without(list, id), over) == if from != -1 && from < target then target - 1 else target
  {
    if list != [] {
      var rest := list[1..];
      assert forall j :: 0 <= j < |rest| ==> rest[j] == list[j + 1];
      FindIndexFinds(rest, id);
      WithoutIndex(rest, id, over);
    }
  }

  /** The slot the code computes is the place the target held before the drag. */
  lemma SlotIsTheTargetsPlace(column: seq<Task>, taskId: string, overId: string)
    requires UniqueIds(column) && taskId != overId
    ensures var slot := InsertionIndex(column, Without(column, taskId), taskId, overId);
      && slot <= |Without(column, taskId)|
      && ListMove(Ids(column), taskId, overId) == InsertAt(Ids(Without(column, taskId)), slot, taskId)
  {
    var without := Without(column, taskId);
    WithoutIds(column, taskId);
    FindIndexFinds(column, taskId);
    FindIndexFinds(column, overId);
    WithoutIndex(column, taskId, overId);
  }

  /** A midpoint, or a step past either end, is strictly inside its slot. */
  lemma InsertKeepsRanks(without: seq<Task>, slot: nat, moved: Task)
    requires StrictlyRanked(without) && slot <= |without|
    requires moved.position == RankAt(without, slot)
    ensures StrictlyRanked(InsertAt(without, slot, moved))
  {
    var list := InsertAt(without, slot, moved);
    forall i, j | 0 <= i < j < |list|
      ensures list[i].position < list[j].position
    {
      if i == slot {
        assert list[j] == without[j - 1];
      } else if j == slot {
        assert list[i] == without[i];
      }
    }
  }

  /** Sorting the column's other cards together with the moved one puts it in its slot and nowhere else. */
  lemma SortedSlot(cards: seq<Task>, column: seq<Task>, cards': seq<Task>, id: string, slot: nat, moved: Task)
    requires StrictlyRanked(column) && UniqueIds(column) && multiset(cards) == multiset(column)
    requires slot <= |Without(column, id)|
    requires moved.position == RankAt(Without(column, id), slot)
    requires multiset(cards') == multiset(Without(cards, id)) + multiset{moved}
    ensures Sort(cards', ByPosition) == InsertAt(Without(column, id), slot, moved)
    ensures StrictlyRanked(InsertAt(Without(column, id), slot, moved))
  {
    var without := Without(column, id);
    var expected := InsertAt(without, slot, moved);
    WithoutKeepsRanks(column, id);
    InsertKeepsRanks(without, slot, moved);
    FilterPermutes(cards, column, OtherThan(id));
    InsertAtAdds(without, slot, moved);
    RankedIsSorted(cards', expected);
  }

  lemma ColumnAfterDrop(tasks: seq<Task>, taskId: string, status: Status, slot: nat, at: nat)
    requires UniqueIds(tasks) && DistinctRanks(tasks)
    requires at < |tasks| && tasks[at].id == taskId
    requires slot <= |Without(ColumnTasks(tasks, status), taskId)|
    ensures
      var without := Without(ColumnTasks(tasks, status), taskId);
      var position := RankAt(without, slot);
      var moved := tasks[at].(status := status, position := position);
      && ColumnTasks(Rewrite(tasks, taskId, status, position), status) == InsertAt(without, slot, moved)
      && StrictlyRanked(InsertAt(without, slot, moved))
  {
    var column := ColumnTasks(tasks, status);
    var without := Without(column, taskId);
    var position := RankAt(without, slot);
    var moved := tasks[at].(status := status, position := position);
    ColumnIsRanked(tasks, status);
    SortsByPosition(OfStatus(tasks, status));
    var within := RewriteHere(tasks, taskId, status, position, at);
    InsertAtAdds(Without(OfStatus(tasks, status), taskId), within, moved);
    SortedSlot(OfStatus(tasks, status), column, OfStatus(Rewrite(tasks, taskId, status, position), status),
               taskId, slot, moved);
  }

  lemma ColumnLeftBehind(tasks: seq<Task>, taskId: string, status: Status, position: real, other: Status)
    requires UniqueIds(tasks) && DistinctRanks(tasks) && other != status
    ensures ColumnTasks(Rewrite(tasks, taskId, status, position), other) == Without(ColumnTasks(tasks, other), taskId)
  {
    var column := ColumnTasks(tasks, other);
    var cards := OfStatus(tasks, other);
    ColumnIsRanked(tasks, other);
    WithoutKeepsRanks(column, taskId);
    RewriteElsewhere(tasks, taskId, status, position, other);
    SortsByPosition(cards);
    FilterPermutes(cards, column, OtherThan(taskId));
    RankedIsSorted(Without(cards, taskId), Without(column, taskId));
  }

  /** The target column becomes the list move of its ids. */
  lemma DropMovesTheColumn(tasks: seq<Task>, taskId: string, overId: string, status: Status)
    requires UniqueIds(tasks) && DistinctRanks(tasks)
    requires taskId != overId && FindIndex(tasks, taskId) != -1
    ensures
      var column := ColumnTasks(tasks, status);
      var without := Without(column, taskId);
      var position := RankAt(without, InsertionIndex(column, without, taskId, overId));
      Ids(ColumnTasks(Rewrite(tasks, taskId, status, position), status)) == ListMove(Ids(column), taskId, overId)
  {
    var column := ColumnTasks(tasks, status);
    var without := Without(column, taskId);
    var slot := InsertionIndex(column, without, taskId, overId);
    var at := FindIndex(tasks, taskId);
    FindIndexFinds(tasks, taskId);
    ColumnIsRanked(tasks, status);
    SlotIsTheTargetsPlace(column, taskId, overId);
    ColumnAfterDrop(tasks, taskId, status, slot, at);
    IdsOfInsert(without, slot, tasks[at].(status := status, position := RankAt(without, slot)));
  }

  lemma IdsOfInsert(list: seq<Task>, slot: nat, moved: Task)
    requires slot <= |list|
    ensures Ids(InsertAt(list, slot, moved)) == InsertAt(Ids(list), slot, moved.id)
  {
    var ids := Ids(InsertAt(list, slot, moved));
    forall i | 0 <= i < |ids|
      ensures ids[i] == InsertAt(Ids(list), slot, moved.id)[i]
    {
      assert ids[i] == InsertAt(list, slot, moved)[i].id;
    }
  }

  lemma DropLeavesOtherColumns(tasks: seq<Task>, taskId: string, status: Status, position: real, other: Status)
    requires UniqueIds(tasks) && DistinctRanks(tasks) && other != status
    ensures Ids(ColumnTasks(Rewrite(tasks, taskId, status, position), other))
         == Remove(Ids(ColumnTasks(tasks, other)), taskId)
  {
    ColumnLeftBehind(tasks, taskId, status, position, other);
    ColumnIsRanked(tasks, other);
    WithoutIds(ColumnTasks(tasks, other), taskId);
  }

  lemma RanksStayDistinct(tasks: seq<Task>, taskId: string, status: Status, slot: nat, at: nat)
    requires UniqueIds(tasks) && DistinctRanks(tasks)
    requires at < |tasks| && tasks[at].id == taskId
    requires slot <= |Without(ColumnTasks(tasks, status), taskId)|
    ensures
      var position := RankAt(Without(ColumnTasks(tasks, status), taskId), slot);
      DistinctRanks(Rewrite(tasks, taskId, status, position))
  {
    var column := ColumnTasks(tasks, status);
    var without := Without(column, taskId);
    var position := RankAt(without, slot);
    RewriteTouchesOne(tasks, taskId, status, position);
    forall k | 0 <= k < |tasks| && k != at && tasks[k].status == status
      ensures tasks[k].position != position
    {
      RankIsFree(tasks, taskId, status, slot, tasks[k]);
    }
  }

  lemma RankIsNew(without: seq<Task>, slot: nat, j: nat)
    requires StrictlyRanked(without) && slot <= |without| && j < |without|
    ensures without[j].position != RankAt(without, slot)
  {
    if j < slot {
      assert without[j].position <= without[slot - 1].position;
    } else {
      assert without[slot].position <= without[j].position;
    }
  }

  /** No other card of the target column holds the new rank. */
  lemma RankIsFree(tasks: seq<Task>, taskId: string, status: Status, slot: nat, other: Task)
    requires UniqueIds(tasks) && DistinctRanks(tasks)
    requires slot <= |Without(ColumnTasks(tasks, status), taskId)|
    requires other in tasks && other.id != taskId && other.status == status
    ensures other.position != RankAt(Without(ColumnTasks(tasks, status), taskId), slot)
  {
    var column := ColumnTasks(tasks, status);
    var without := Without(column, taskId);
    assert other in without by {
      ColumnIsRanked(tasks, status);
      FilterMember(column, OtherThan(taskId), other);
    }
    var j :| 0 <= j < |without| && without[j] == other;
    assert StrictlyRanked(without) by {
      ColumnIsRanked(tasks, status);
      WithoutKeepsRanks(column, taskId);
    }
    RankIsNew(without, slot, j);
  }

  ghost predicate HasCard(tasks: seq<Task>, id: string) {
    exists i :: 0 <= i < |tasks| && tasks[i].id == id
  }

  ghost predicate IsColumnId(overId: string) {
    overId == "column-todo" || overId == "column-in-progress" || overId == "column-done"
  }

  /** The column a target stands for: the one its id names, or else the column of the card with that id. */
  ghost predicate Targets(tasks: seq<Task>, overId: string, status: Status) {
    if overId == "column-todo" then status == Todo
    else if overId == "column-in-progress" then status == InProgress
    else if overId == "column-done" then status == Done
    else exists i :: 0 <= i < |tasks| && tasks[i].id == overId && tasks[i].status == status
  }

  lemma TargetsAreFound(tasks: seq<Task>, overId: string, status: Status)
    requires UniqueIds(tasks)
    ensures Targets(tasks, overId, status) <==> StatusOfDropTarget(tasks, overId) == Some(status)
  {
    FindIndexFinds(tasks, overId);
  }

  /** A drop on a target writes one row, at the target's slot of its column. */
  lemma DropRewrites(tasks: seq<Task>, taskId: string, overId: string, status: Status)
    requires UniqueIds(tasks) && taskId != overId && HasCard(tasks, taskId) && Targets(tasks, overId, status)
    ensures
      var column := ColumnTasks(tasks, status);
      var without := Without(column, taskId);
      var slot := InsertionIndex(column, without, taskId, overId);
      MoveTaskTo(tasks, taskId, overId) == Rewrite(tasks, taskId, status, RankAt(without, slot))
  {
    hide InsertionIndex, ColumnTasks, Rewrite, RankAt, Filter;
    FindIndexFinds(tasks, taskId);
    TargetsAreFound(tasks, overId, status);
  }

  /**
   * With distinct ranks, a drop is a list move: the target column becomes the
   * list move of its ids, every other column only loses the card, every other
   * card is untouched, and ranks stay distinct.
   */
  lemma DropIsListMove(tasks: seq<Task>, taskId: string, overId: string, status: Status)
    requires UniqueIds(tasks) && DistinctRanks(tasks)
    requires taskId != overId && HasCard(tasks, taskId) && Targets(tasks, overId, status)
    ensures
      var tasks' := MoveTaskTo(tasks, taskId, overId);
      && Ids(ColumnTasks(tasks', status)) == ListMove(Ids(ColumnTasks(tasks, status)), taskId, overId)
      && (forall other :: other != status ==>
            Ids(ColumnTasks(tasks', other)) == Remove(Ids(ColumnTasks(tasks, other)), taskId))
      && |tasks'| == |tasks|
      && (forall i :: 0 <= i < |tasks| ==>
            if tasks[i].id == taskId then tasks'[i] == tasks[i].(status := status, position := tasks'[i].position)
            else tasks'[i] == tasks[i])
      && UniqueIds(tasks') && DistinctRanks(tasks')
  {
    hide MoveTaskTo, InsertionIndex, ListMove, ColumnTasks, Rewrite, RankAt, Targets;
    var column := ColumnTasks(tasks, status);
    var without := Without(column, taskId);
    var slot := InsertionIndex(column, without, taskId, overId);
    FindIndexFinds(tasks, taskId);
    DropRewrites(tasks, taskId, overId, status);
    DropMovesTheColumn(tasks, taskId, overId, status);
    forall other | other != status
      ensures Ids(ColumnTasks(MoveTaskTo(tasks, taskId, overId), other)) == Remove(Ids(ColumnTasks(tasks, other)), taskId)
    {
      DropLeavesOtherColumns(tasks, taskId, status, RankAt(without, slot), other);
    }
    RewriteTouchesOne(tasks, taskId, status, RankAt(without, slot));
    assert slot <= |without| by {
      ColumnIsRanked(tasks, status);
      SlotIsTheTargetsPlace(column, taskId, overId);
    }
    RanksStayDistinct(tasks, taskId, status, slot, FindIndex(tasks, taskId));
  }

  /** On a column's own id the card goes to the end of the column that the id names. */
  lemma DropOnColumnGoesLast(tasks: seq<Task>, taskId: string, overId: string, status: Status)
    requires UniqueIds(tasks) && DistinctRanks(tasks) && HasCard(tasks, taskId) && !HasCard(tasks, overId)
    requires IsColumnId(overId) && Targets(tasks, overId, status)
    ensures
      Ids(ColumnTasks(MoveTaskTo(tasks, taskId, overId), status))
      == Remove(Ids(ColumnTasks(tasks, status)), taskId) + [taskId]
  {
    var column := ColumnTasks(tasks, status);
    DropIsListMove(tasks, taskId, overId, status);
    ColumnIsRanked(tasks, status);
    FindIndexFinds(column, overId);
    if IndexOf(Ids(column), overId) != -1 {
      var card := column[IndexOf(Ids(column), overId)];
      assert card in column && card in tasks && HasCard(tasks, overId);
    }
  }

  /** On another card the card goes to that card's column; on anything else nothing moves. */
  lemma DropOnCardOrNothing(tasks: seq<Task>, taskId: string, overId: string, at: nat)
    requires UniqueIds(tasks) && DistinctRanks(tasks) && !IsColumnId(overId)
    requires at < |tasks| && tasks[at].id == taskId
    ensures forall i :: 0 <= i < |tasks| && tasks[i].id == overId && overId != taskId ==>
              |MoveTaskTo(tasks, taskId, overId)| == |tasks|
              && MoveTaskTo(tasks, taskId, overId)[at].id == taskId
              && MoveTaskTo(tasks, taskId, overId)[at].status == tasks[i].status
    ensures !HasCard(tasks, overId) ==> MoveTaskTo(tasks, taskId, overId) == tasks
    ensures overId == taskId ==> MoveTaskTo(tasks, taskId, overId) == tasks
  {
    FindIndexFinds(tasks, overId);
    forall i | 0 <= i < |tasks| && tasks[i].id == overId && overId != taskId
      ensures |MoveTaskTo(tasks, taskId, overId)| == |tasks|
              && MoveTaskTo(tasks, taskId, overId)[at].id == taskId
              && MoveTaskTo(tasks, taskId, overId)[at].status == tasks[i].status
    {
      DropIsListMove(tasks, taskId, overId, tasks[i].status);
    }
  }

  /** The rank the dropped card gets: halfway, or 1024 past the end it goes to, or 1024 in an empty column. */
  lemma RankInTerms(without: seq<Task>, slot: nat)
    requires slot <= |without|
    ensures RankAt(without, slot) ==
      if without == [] then 1024.0
      else if slot == 0 then without[0].position - 1024.0
      else if slot == |without| then without[slot - 1].position + 1024.0
      else (without[slot - 1].position + without[slot].position) / 2.0
  {
  }

  /** A drop on itself, of an unknown card, or on an unknown target changes nothing. */
  lemma DropOnNothing(tasks: seq<Task>, taskId: string, overId: string)
    requires taskId == overId || FindIndex(tasks, taskId) == -1 || StatusOfDropTarget(tasks, overId).None?
    ensures MoveTaskTo(tasks, taskId, overId) == tasks
  {
  }

  /** A new card ranked by `EndOfColumn` is the last of its column. */
  lemma ComposedCardIsLast(tasks: seq<Task>, card: Task)
    requires UniqueIds(tasks) && DistinctRanks(tasks)
    requires forall i :: 0 <= i < |tasks| ==> tasks[i].id != card.id
    requires card.position == EndOfColumn(tasks, card.status)
    ensures ColumnTasks(tasks + [card], card.status) == ColumnTasks(tasks, card.status) + [card]
  {
    hide Filter, Sort;
    var column := ColumnTasks(tasks, card.status);
    ColumnIsRanked(tasks, card.status);
    SortsByPosition(OfStatus(tasks, card.status));
    FilterAppend(tasks, [card], HasStatus(card.status));
    FilterAll([card], HasStatus(card.status));
    RankedIsSorted(OfStatus(tasks + [card], card.status), column + [card]);
  }
}
