/** Where a dropped row lands in its list, and the neighbours it names to the API. */
module TaskRank {
  import opened Lists
  import opened Prelude
  import opened Sorting
  import opened SprintBoard

  datatype Target = Target(afterId: Option<string>, beforeId: Option<string>, position: real)

  /** `list[i]?.id` */
  function IdAt(list: seq<Task>, i: int): Option<string> {
    if 0 <= i < |list| then Some(list[i].id) else None
  }

  /** A `null` or an empty string both read as "no row". */
  function Named(overId: Option<string>): Option<string> {
    if overId == Some("") then None else overId
  }

  function Slot(list: seq<Task>, others: seq<Task>, activeId: string, overId: Option<string>, sameList: bool): nat {
    if Named(overId).Some? && overId.value != activeId then
      var overIndex := FindIndex(others, overId.value);
      if overIndex >= 0 then
        var fromAbove := sameList && FindIndex(list, activeId) < FindIndex(list, overId.value);
        if fromAbove then overIndex + 1 else overIndex
      else |others|
    else |others|
  }

  function Between(after: Option<real>, before: Option<real>): real {
    if after.Some? && before.Some? then (after.value + before.value) / 2.0
    else if after.Some? then after.value + STEP
    else if before.Some? then before.value - STEP
    else 0.0
  }

  function RankTarget(list: seq<Task>, activeId: string, overId: Option<string>, sameList: bool): Option<Target> {
    var others := Without(list, activeId);
    if !(Named(overId).Some? && overId.value != activeId) && overId == Some(activeId) then None
    else
      var index := Slot(list, others, activeId, overId, sameList);
      var current := FindIndex(list, activeId);
      if && sameList
         && IdAt(list, current - 1) == IdAt(others, index - 1)
         && IdAt(list, current + 1) == IdAt(others, index)
      then None
      else Some(Target(IdAt(others, index - 1), IdAt(others, index),
                       Between(PositionAt(others, index - 1), PositionAt(others, index))))
  }

  /** The order asked for: the list move of the board; dropped on the section, the row goes last. */
  ghost function Asked(ids: seq<string>, id: string, overId: Option<string>): seq<string> {
    if overId.Some? && overId.value != "" then ListMove(ids, id, overId.value) else Remove(ids, id) + [id]
  }

  /** The hook passes `sameList` when the dragged row is already in the list, and rows have non-empty ids. */
  ghost predicate Fits(list: seq<Task>, activeId: string, sameList: bool) {
    && UniqueIds(list) && activeId != ""
    && (sameList <==> FindIndex(list, activeId) != -1)
  }

  /** The row's slot is the one the sprint board's drop uses: one rule, two files. */
  lemma SameSlotAsTheBoard(list: seq<Task>, activeId: string, overId: string, sameList: bool)
    requires Fits(list, activeId, sameList) && overId != activeId && overId != ""
    ensures Slot(list, Without(list, activeId), activeId, Some(overId), sameList)
         == InsertionIndex(list, Without(list, activeId), activeId, overId)
  {
  }

  lemma SlotIsAsked(list: seq<Task>, activeId: string, overId: Option<string>, sameList: bool)
    requires Fits(list, activeId, sameList) && overId != Some(activeId)
    ensures var others := Without(list, activeId);
      var slot := Slot(list, others, activeId, overId, sameList);
      && slot <= |others|
      && Asked(Ids(list), activeId, overId) == InsertAt(Ids(others), slot, activeId)
  {
    hide InsertionIndex, Filter, Remove;
    WithoutIds(list, activeId);
    if Named(overId).Some? {
      SlotIsTheTargetsPlace(list, activeId, overId.value);
      SameSlotAsTheBoard(list, activeId, overId.value, sameList);
    }
  }

  /** The list is its other rows with the dragged one put back where it is. */
  lemma {:induction false} PutBack(list: seq<Task>, id: string)
    requires UniqueIds(list) && FindIndex(list, id) != -1
    ensures var at := FindIndex(list, id);
      && at <= |Without(list, id)| && list[at].id == id
      && list == InsertAt(Without(list, id), at, list[at])
  {
    if list[0].id == id {
      var rest := list[1..];
      assert forall j :: 0 <= j < |rest| ==> rest[j] == list[j + 1];
      FilterAll(rest, OtherThan(id));
    } else {
      var rest := list[1..];
      assert UniqueIds(rest);
      PutBack(rest, id);
      var at := FindIndex(rest, id);
      InsertAtPrepend(list[0], Without(rest, id), at, rest[at]);
    }
  }

  lemma IdsOfInserted(list: seq<Task>, slot: nat, x: Task)
    requires slot <= |list|
    ensures Ids(InsertAt(list, slot, x)) == InsertAt(Ids(list), slot, x.id)
  {
  }

  /** Inserting at two different slots gives two different lists. */
  lemma SlotsDiffer(ids: seq<string>, i: nat, j: nat, id: string)
    requires i < j <= |ids| && id !in ids
    ensures InsertAt(ids, i, id) != InsertAt(ids, j, id)
  {
    assert InsertAt(ids, i, id)[i] == id;
    assert InsertAt(ids, j, id)[i] == ids[i];
  }

  /** Two slots of a list without repeated ids have the same two neighbours only when they are the same slot. */
  lemma SameNeighboursSameSlot(list: seq<Task>, others: seq<Task>, current: nat, slot: nat)
    requires UniqueIds(list) && current < |list| && slot <= |others|
    requires current <= |others| && list == InsertAt(others, current, list[current])
    ensures IdAt(list, current - 1) == IdAt(others, slot - 1) && IdAt(list, current + 1) == IdAt(others, slot)
       <==> slot == current
  {
    if slot < current {
      assert others[slot] == list[slot];
    } else if current < slot {
      assert others[slot - 1] == list[slot];
    }
  }

  /** The order is unchanged exactly when the slot is the row's own. */
  lemma SameOrderSameSlot(list: seq<Task>, id: string, slot: nat)
    requires UniqueIds(list) && FindIndex(list, id) != -1 && slot <= |Without(list, id)|
    ensures InsertAt(Ids(Without(list, id)), slot, id) == Ids(list) <==> slot == FindIndex(list, id)
  {
    var others := Without(list, id);
    var current := FindIndex(list, id);
    PutBack(list, id);
    IdsOfInserted(others, current, list[current]);
    forall i | 0 <= i < |others|
      ensures others[i].id != id
    {
      FilterMember(list, OtherThan(id), others[i]);
    }
    if slot < current {
      SlotsDiffer(Ids(others), slot, current, id);
    } else if current < slot {
      SlotsDiffer(Ids(others), current, slot, id);
    }
  }

  lemma OnItself(list: seq<Task>, activeId: string)
    requires Fits(list, activeId, true)
    ensures Asked(Ids(list), activeId, Some(activeId)) == Ids(list)
  {
    var current := FindIndex(list, activeId);
    FindIndexFinds(list, activeId);
    WithoutIds(list, activeId);
    PutBack(list, activeId);
    SameOrderSameSlot(list, activeId, current);
  }

  /** `null` is the answer exactly when the drop would leave the order as it is. */
  lemma NullMeansUnchanged(list: seq<Task>, activeId: string, overId: Option<string>)
    requires Fits(list, activeId, true)
    ensures RankTarget(list, activeId, overId, true).None?
       <==> Asked(Ids(list), activeId, overId) == Ids(list)
  {
    hide Without, FindIndex, Asked, Slot, InsertAt, IdAt, Ids;
    if overId == Some(activeId) {
      OnItself(list, activeId);
    } else {
      var others, current := Without(list, activeId), FindIndex(list, activeId);
      var slot := Slot(list, others, activeId, overId, true);
      PutBack(list, activeId);
      SlotIsAsked(list, activeId, overId, true);
      SameOrderSameSlot(list, activeId, slot);
      SameNeighboursSameSlot(list, others, current, slot);
    }
  }

  /** From another list the answer is a target, unless the row is dropped on itself. */
  lemma FromElsewhere(list: seq<Task>, activeId: string, overId: Option<string>)
    requires Fits(list, activeId, false)
    ensures RankTarget(list, activeId, overId, false).None? <==> overId == Some(activeId)
  {
  }

  /** The optimistic rank is strictly between the neighbours the target names, in a strictly ranked list. */
  lemma StrictlyBetweenNeighbours(list: seq<Task>, activeId: string, overId: Option<string>, sameList: bool)
    requires Fits(list, activeId, sameList) && StrictlyRanked(list)
    requires RankTarget(list, activeId, overId, sameList).Some?
    ensures
      var target := RankTarget(list, activeId, overId, sameList).value;
      && (forall t :: t in list && target.afterId == Some(t.id) ==> t.id != activeId && t.position < target.position)
      && (forall t :: t in list && target.beforeId == Some(t.id) ==> t.id != activeId && target.position < t.position)
  {
    var others := Without(list, activeId);
    var slot := Slot(list, others, activeId, overId, sameList);
    var target := RankTarget(list, activeId, overId, sameList).value;
    SlotIsAsked(list, activeId, overId, sameList);
    WithoutKeepsRanks(list, activeId);
    forall t, i | t in list && 0 <= i < |others| && others[i].id == t.id
      ensures t == others[i] && t.id != activeId
    {
      FilterMember(list, OtherThan(activeId), others[i]);
    }
  }

  /**
   * The target in terms of the other rows: the order asked for is the others with the
   * row put in at a slot; the rows on either side of that slot are the ones named, and the
   * rank is halfway between them, 1024 past the only one, or 0 in an empty list.
   */
  lemma TargetInTerms(list: seq<Task>, activeId: string, overId: Option<string>, sameList: bool) returns (slot: nat)
    requires Fits(list, activeId, sameList) && RankTarget(list, activeId, overId, sameList).Some?
    ensures
      var target, others := RankTarget(list, activeId, overId, sameList).value, Without(list, activeId);
      && slot <= |others|
      && Asked(Ids(list), activeId, overId) == InsertAt(Ids(others), slot, activeId)
      && target.afterId == (if slot > 0 then Some(others[slot - 1].id) else None)
      && target.beforeId == (if slot < |others| then Some(others[slot].id) else None)
      && target.position ==
           if others == [] then 0.0
           else if slot == 0 then others[0].position - 1024.0
           else if slot == |others| then others[slot - 1].position + 1024.0
           else (others[slot - 1].position + others[slot].position) / 2.0
  {
    hide FindIndex, Asked, InsertAt, Without;
    slot := Slot(list, Without(list, activeId), activeId, overId, sameList);
    SlotIsAsked(list, activeId, overId, sameList);
  }

  /** The neighbours named to the API are the row's own in the order asked for, none past an end. */
  lemma NamesItsNeighbours(list: seq<Task>, activeId: string, overId: Option<string>, sameList: bool, k: nat)
    requires Fits(list, activeId, sameList) && RankTarget(list, activeId, overId, sameList).Some?
    requires
      var order := Asked(Ids(list), activeId, overId);
      k < |order| && order[k] == activeId
    ensures
      var target, order := RankTarget(list, activeId, overId, sameList).value, Asked(Ids(list), activeId, overId);
      && target.afterId == (if k > 0 then Some(order[k - 1]) else None)
      && target.beforeId == (if k + 1 < |order| then Some(order[k + 1]) else None)
  {
    hide RankTarget, Asked, Without, FindIndex;
    var others := Without(list, activeId);
    var slot := TargetInTerms(list, activeId, overId, sameList);
    if k != slot {
      var i := if k < slot then k else k - 1;
      assert others[i].id == activeId;
      WithoutLacks(list, activeId, i);
    }
  }

  lemma WithoutLacks(list: seq<Task>, id: string, i: nat)
    requires i < |Without(list, id)|
    ensures Without(list, id)[i].id != id
  {
    FilterMember(list, OtherThan(id), Without(list, id)[i]);
  }

  lemma RankedIntoSlot(others: seq<Task>, slot: nat, moved: Task)
    requires StrictlyRanked(others) && slot <= |others|
    requires moved.position == Between(PositionAt(others, slot - 1), PositionAt(others, slot))
    ensures Sort(others + [moved], ByPosition) == InsertAt(others, slot, moved)
  {
    if others != [] {
      InsertKeepsRanks(others, slot, moved);
    }
    InsertAtAdds(others, slot, moved);
    RankedIsSorted(others + [moved], InsertAt(others, slot, moved));
  }

  /** Re-sorting with the optimistic rank puts the row in the slot that was asked for. */
  lemma OptimisticOrderIsAsked(list: seq<Task>, activeId: string, overId: Option<string>, sameList: bool, moved: Task)
    requires Fits(list, activeId, sameList) && StrictlyRanked(list)
    requires RankTarget(list, activeId, overId, sameList).Some?
    requires moved.id == activeId && moved.position == RankTarget(list, activeId, overId, sameList).value.position
    ensures Ids(Sort(Without(list, activeId) + [moved], ByPosition)) == Asked(Ids(list), activeId, overId)
  {
    var others := Without(list, activeId);
    var slot := Slot(list, others, activeId, overId, sameList);
    SlotIsAsked(list, activeId, overId, sameList);
    WithoutKeepsRanks(list, activeId);
    RankedIntoSlot(others, slot, moved);
    IdsOfInserted(others, slot, moved);
  }
}
