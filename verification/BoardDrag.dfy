/**
 * The geometry of a drag over boxes frozen at the press: the column and slot
 * under the pointer, and how far every card slides.
 */
module BoardDrag {
  import opened Lists
  import opened Prelude
  import opened BoardOrder

  datatype CardBox = CardBox(id: Id, top: real, height: real)

  datatype ColumnBox = ColumnBox(status: ProjectStatus, left: real, right: real, top: real, cards: seq<CardBox>)

  datatype Target = Target(status: ProjectStatus, index: nat)

  type Snapshot = seq<ColumnBox>

  // ---- Snapshots ----

  ghost predicate Contains(column: ColumnBox, x: real) {
    column.left <= x <= column.right
  }

  function Abs(x: real): real {
    if x < 0.0 then -x else x
  }

  function Min(a: real, b: real): real {
    if a < b then a else b
  }

  /** From the nearer edge. */
  ghost function Distance(column: ColumnBox, x: real): real {
    var toLeft := if x < column.left then column.left - x else x - column.left;
    var toRight := if x < column.right then column.right - x else x - column.right;
    if toLeft <= toRight then toLeft else toRight
  }

  ghost function Middle(card: CardBox): real {
    card.top + card.height / 2.0
  }

  /** Where the `k`-th card of a column laid out from `top` starts. */
  function TopOf(cards: seq<CardBox>, top: real, k: nat): real
    requires k <= |cards|
  {
    if k == 0 then top else TopOf(cards, top, k - 1) + cards[k - 1].height
  }

  /** Cards lie one below the other from the column's top, and each has some height. */
  ghost predicate LaidOut(column: ColumnBox) {
    forall i :: 0 <= i < |column.cards| ==>
      column.cards[i].top == TopOf(column.cards, column.top, i) && column.cards[i].height > 0.0
  }

  ghost predicate UniqueCards(snapshot: Snapshot) {
    && (forall k, l :: 0 <= k < l < |snapshot| ==> snapshot[k].status != snapshot[l].status)
    && (forall k, i, j :: 0 <= k < |snapshot| && 0 <= i < j < |snapshot[k].cards| ==>
          snapshot[k].cards[i].id != snapshot[k].cards[j].id)
    && (forall k, l, i, j :: 0 <= k < l < |snapshot| && 0 <= i < |snapshot[k].cards| && 0 <= j < |snapshot[l].cards| ==>
          snapshot[k].cards[i].id != snapshot[l].cards[j].id)
  }

  function OtherThan(id: Id): CardBox -> bool {
    (card: CardBox) => card.id != id
  }

  function Without(cards: seq<CardBox>, id: Id): seq<CardBox> {
    Filter(cards, OtherThan(id))
  }

  function FindCard(cards: seq<CardBox>, id: Id): Option<CardBox> {
    if cards == [] then None
    else if cards[0].id == id then Some(cards[0])
    else FindCard(cards[1..], id)
  }

  function FindOnBoard(snapshot: Snapshot, id: Id): Option<CardBox> {
    if snapshot == [] then None
    else if FindCard(snapshot[0].cards, id).Some? then FindCard(snapshot[0].cards, id)
    else FindOnBoard(snapshot[1..], id)
  }

  function SourceOf(snapshot: Snapshot, id: Id): Option<ProjectStatus> {
    if snapshot == [] then None
    else if FindCard(snapshot[0].cards, id).Some? then Some(snapshot[0].status)
    else SourceOf(snapshot[1..], id)
  }

  // ---- The pointer's column and slot ----

  /** The first column under the pointer; between columns, the first of the nearest. */
  method ColumnAt(snapshot: Snapshot, x: real) returns (column: Option<ColumnBox>, ghost at: nat)
    ensures column.None? <==> snapshot == []
    ensures column.Some? ==> at < |snapshot| && column.value == snapshot[at]
    ensures column.Some? && (exists k :: 0 <= k < |snapshot| && Contains(snapshot[k], x)) ==>
              Contains(column.value, x) && forall k :: 0 <= k < at ==> !Contains(snapshot[k], x)
    ensures column.Some? && (forall k :: 0 <= k < |snapshot| ==> !Contains(snapshot[k], x)) ==>
              && (forall k :: 0 <= k < |snapshot| ==> Distance(column.value, x) <= Distance(snapshot[k], x))
              && (forall k :: 0 <= k < at ==> Distance(column.value, x) < Distance(snapshot[k], x))
  {
    column, at := None, 0;
    var best: Option<real> := None;     // None is Infinity
    for i := 0 to |snapshot|
      invariant forall k :: 0 <= k < i ==> !Contains(snapshot[k], x)
      invariant best.None? <==> i == 0
      invariant best.None? <==> column.None?
      invariant column.Some? ==>
                  && at < i && column.value == snapshot[at] && best.value == Distance(snapshot[at], x)
                  && (forall k :: 0 <= k < i ==> best.value <= Distance(snapshot[k], x))
                  && (forall k :: 0 <= k < at ==> best.value < Distance(snapshot[k], x))
    {
      if x >= snapshot[i].left && x <= snapshot[i].right {
        return Some(snapshot[i]), i;
      }
      var distance := Min(Abs(x - snapshot[i].left), Abs(x - snapshot[i].right));
      if best.None? || distance < best.value {
        best := Some(distance);
        column, at := Some(snapshot[i]), i;
      }
    }
  }

  /** The pointer has passed the middle of the cards before `index`, and of none at it. */
  ghost predicate SlotFor(rest: seq<CardBox>, y: real, index: nat) {
    && index <= |rest|
    && (forall i :: 0 <= i < index ==> y > Middle(rest[i]))
    && (index < |rest| ==> y <= Middle(rest[index]))
  }

  /** The answer for a pointer: nothing on an empty board, else the pointed column `at` and the slot in it. */
  ghost predicate Resolves(snapshot: Snapshot, draggedId: Id, x: real, y: real, target: Option<Target>, at: nat) {
    && (target.None? <==> snapshot == [])
    && (target.Some? ==>
          && at < |snapshot| && target.value.status == snapshot[at].status
          && SlotFor(Without(snapshot[at].cards, draggedId), y, target.value.index))
    && (target.Some? && (exists k :: 0 <= k < |snapshot| && Contains(snapshot[k], x)) ==>
          Contains(snapshot[at], x) && forall k :: 0 <= k < at ==> !Contains(snapshot[k], x))
    && (target.Some? && (forall k :: 0 <= k < |snapshot| ==> !Contains(snapshot[k], x)) ==>
          && (forall k :: 0 <= k < |snapshot| ==> Distance(snapshot[at], x) <= Distance(snapshot[k], x))
          && (forall k :: 0 <= k < at ==> Distance(snapshot[at], x) < Distance(snapshot[k], x)))
  }

  method ResolveTarget(snapshot: Snapshot, draggedId: Id, x: real, y: real)
    returns (target: Option<Target>, ghost at: nat)
    ensures target.None? <==> snapshot == []
    ensures Resolves(snapshot, draggedId, x, y, target, at)
  {
    var column: Option<ColumnBox>;
    column, at := ColumnAt(snapshot, x);
    if column.None? {
      return None, 0;
    }
    var rest := Without(column.value.cards, draggedId);
    var index := 0;
    while index < |rest| && y > rest[index].top + rest[index].height / 2.0
      invariant index <= |rest|
      invariant forall i :: 0 <= i < index ==> y > Middle(rest[i])
    {
      index := index + 1;
    }
    return Some(Target(column.value.status, index)), at;
  }

  // ---- The offsets ----

  /** The column as it will be. */
  function Settled(column: ColumnBox, dragged: CardBox, isTarget: bool, index: nat): seq<CardBox> {
    var rest := Without(column.cards, dragged.id);
    if isTarget then InsertAt(rest, index, dragged) else rest
  }

  /** One column's slides: where each card will start, less where it starts now. */
  ghost predicate Slides(column: ColumnBox, settled: seq<CardBox>, draggedId: Id, offsets: map<Id, real>, upTo: nat) {
    forall i :: 0 <= i < upTo <= |settled| && settled[i].id != draggedId ==>
      settled[i].id in offsets && offsets[settled[i].id] == TopOf(settled, column.top, i) - settled[i].top
  }

  ghost predicate SlidIn(settled: seq<CardBox>, draggedId: Id, id: Id, upTo: nat) {
    exists i :: 0 <= i < upTo <= |settled| && settled[i].id == id && id != draggedId
  }

  ghost predicate Involved(column: ColumnBox, source: ProjectStatus, target: Target) {
    column.status == source || column.status == target.status
  }

  /** What the map of offsets holds after the first `n` columns. */
  ghost predicate OffsetsFor(snapshot: Snapshot, dragged: CardBox, source: ProjectStatus, target: Target,
                             offsets: map<Id, real>, n: nat)
    requires n <= |snapshot|
  {
    && (forall k :: 0 <= k < n && Involved(snapshot[k], source, target) ==>
          var settled := Settled(snapshot[k], dragged, snapshot[k].status == target.status, target.index);
          Slides(snapshot[k], settled, dragged.id, offsets, |settled|))
    && (forall id :: id in offsets ==>
          exists k :: 0 <= k < n && Involved(snapshot[k], source, target) && FindCard(snapshot[k].cards, id).Some?)
    && dragged.id !in offsets
  }

  /** The entries of the first `n` columns; a later one for the same id replaces an earlier one. */
  ghost function OffsetMap(snapshot: Snapshot, dragged: CardBox, source: ProjectStatus, target: Target, n: nat)
    : map<Id, real>
    requires n <= |snapshot|
  {
    if n == 0 then map[]
    else
      var column := snapshot[n - 1];
      var settled := Settled(column, dragged, column.status == target.status, target.index);
      var earlier := OffsetMap(snapshot, dragged, source, target, n - 1);
      if Involved(column, source, target) then earlier + SlideMap(column, settled, dragged.id, |settled|) else earlier
  }

  method CardOffsets(snapshot: Snapshot, draggedId: Id, target: Target) returns (offsets: map<Id, real>)
    ensures FindOnBoard(snapshot, draggedId).None? ==> offsets == map[]
    ensures FindOnBoard(snapshot, draggedId).Some? ==>
              && SourceOf(snapshot, draggedId).Some?
              && offsets == OffsetMap(snapshot, FindOnBoard(snapshot, draggedId).value,
                                      SourceOf(snapshot, draggedId).value, target, |snapshot|)
    ensures UniqueCards(snapshot) && FindOnBoard(snapshot, draggedId).Some? ==>
              && SourceOf(snapshot, draggedId).Some?
              && OffsetsFor(snapshot, FindOnBoard(snapshot, draggedId).value, SourceOf(snapshot, draggedId).value,
                            target, offsets, |snapshot|)
  {
    offsets := map[];
    var found := FindOnBoard(snapshot, draggedId);
    if found.None? {
      return;
    }
    var dragged := found.value;
    ghost var home := DraggedIsOnBoard(snapshot, draggedId);
    var source := SourceOf(snapshot, draggedId).value;
    for k := 0 to |snapshot|
      invariant offsets == OffsetMap(snapshot, dragged, source, target, k)
    {
      var column := snapshot[k];
      var isTarget := column.status == target.status;
      if column.status == source || isTarget {
        var settled := Settled(column, dragged, isTarget, target.index);
        offsets := ColumnOffsets(column, settled, draggedId, offsets);
      }
    }
    if UniqueCards(snapshot) {
      OffsetMapIsRight(snapshot, home, dragged, source, target, |snapshot|);
    }
  }

  /** With each card listed once the map holds what every settled column asks for. */
  lemma {:induction false} OffsetMapIsRight(snapshot: Snapshot, home: nat, dragged: CardBox, source: ProjectStatus,
                                            target: Target, n: nat)
    requires UniqueCards(snapshot) && n <= |snapshot| && home < |snapshot|
    requires FindCard(snapshot[home].cards, dragged.id) == Some(dragged)
    ensures OffsetsFor(snapshot, dragged, source, target, OffsetMap(snapshot, dragged, source, target, n), n)
  {
    hide Settled, UniqueCards, FindCard, SlideMap, Slides, SlidIn, OwnCards;
    if n > 0 {
      OffsetMapIsRight(snapshot, home, dragged, source, target, n - 1);
      var before := OffsetMap(snapshot, dragged, source, target, n - 1);
      var column := snapshot[n - 1];
      var isTarget := column.status == target.status;
      if Involved(column, source, target) {
        var settled := Settled(column, dragged, isTarget, target.index);
        var offsets := before + SlideMap(column, settled, dragged.id, |settled|);
        SettledCards(snapshot, n - 1, home, dragged, isTarget, target.index);
        ColumnIsRight(column, settled, dragged.id, before, offsets);
        EarlierColumnsKept(snapshot, home, dragged, source, target, before, offsets, n - 1);
      }
    }
  }

  lemma ColumnIsRight(column: ColumnBox, settled: seq<CardBox>, draggedId: Id, before: map<Id, real>, offsets: map<Id, real>)
    requires OwnCards(column, settled, draggedId)
    requires offsets == before + SlideMap(column, settled, draggedId, |settled|)
    ensures Slides(column, settled, draggedId, offsets, |settled|)
    ensures forall id :: id in offsets <==> id in before || SlidIn(settled, draggedId, id, |settled|)
    ensures forall id :: id in before && !SlidIn(settled, draggedId, id, |settled|) ==> offsets[id] == before[id]
  {
    SlideMapSlides(column, settled, draggedId);
  }

  /** The inner loop, over one settled column. */
  method ColumnOffsets(column: ColumnBox, settled: seq<CardBox>, draggedId: Id, before: map<Id, real>)
    returns (offsets: map<Id, real>)
    ensures offsets == before + SlideMap(column, settled, draggedId, |settled|)
    ensures OwnCards(column, settled, draggedId) ==>
              && Slides(column, settled, draggedId, offsets, |settled|)
              && (forall id :: id in offsets <==> id in before || SlidIn(settled, draggedId, id, |settled|))
              && (forall id :: id in before && !SlidIn(settled, draggedId, id, |settled|) ==> offsets[id] == before[id])
  {
    offsets := before;
    var top := column.top;
    for i := 0 to |settled|
      invariant top == TopOf(settled, column.top, i)
      invariant offsets == before + SlideMap(column, settled, draggedId, i)
    {
      var card := settled[i];
      var original := FindCard(column.cards, card.id);
      if original.Some? && card.id != draggedId {
        offsets := offsets[card.id := top - original.value.top];
      }
      top := top + card.height;
    }
    if OwnCards(column, settled, draggedId) {
      ColumnIsRight(column, settled, draggedId, before, offsets);
    }
  }

  /** The entries that the first `n` cards of a settled column write. */
  ghost function SlideMap(column: ColumnBox, settled: seq<CardBox>, draggedId: Id, n: nat): map<Id, real>
    requires n <= |settled|
  {
    if n == 0 then map[]
    else
      var card := settled[n - 1];
      var earlier := SlideMap(column, settled, draggedId, n - 1);
      match FindCard(column.cards, card.id)
      case None => earlier
      case Some(original) =>
        if card.id == draggedId then earlier
        else earlier[card.id := TopOf(settled, column.top, n - 1) - original.top]
  }

  ghost predicate OwnCards(column: ColumnBox, settled: seq<CardBox>, draggedId: Id) {
    && DistinctIds(settled)
    && forall i :: 0 <= i < |settled| && settled[i].id != draggedId ==>
         FindCard(column.cards, settled[i].id) == Some(settled[i])
  }

  lemma {:induction false} SlideMapValue(column: ColumnBox, settled: seq<CardBox>, draggedId: Id, n: nat, i: nat)
    requires OwnCards(column, settled, draggedId) && i < n <= |settled| && settled[i].id != draggedId
    ensures settled[i].id in SlideMap(column, settled, draggedId, n)
    ensures SlideMap(column, settled, draggedId, n)[settled[i].id] == TopOf(settled, column.top, i) - settled[i].top
  {
    if i < n - 1 {
      SlideMapValue(column, settled, draggedId, n - 1, i);
      assert settled[i].id != settled[n - 1].id;
    }
  }

  lemma {:induction false} SlideMapKey(column: ColumnBox, settled: seq<CardBox>, draggedId: Id, n: nat, id: Id)
    requires n <= |settled| && id in SlideMap(column, settled, draggedId, n)
    ensures SlidIn(settled, draggedId, id, n)
  {
    var card := settled[n - 1];
    if id in SlideMap(column, settled, draggedId, n - 1) {
      SlideMapKey(column, settled, draggedId, n - 1, id);
      var i :| 0 <= i < n - 1 && settled[i].id == id && id != draggedId;
      assert settled[i].id == id;
    } else {
      assert card.id == id;
    }
  }

  lemma SlideMapSlides(column: ColumnBox, settled: seq<CardBox>, draggedId: Id)
    requires OwnCards(column, settled, draggedId)
    ensures var slides := SlideMap(column, settled, draggedId, |settled|);
      && Slides(column, settled, draggedId, slides, |settled|)
      && forall id :: id in slides <==> SlidIn(settled, draggedId, id, |settled|)
  {
    forall i | 0 <= i < |settled| && settled[i].id != draggedId
      ensures var slides := SlideMap(column, settled, draggedId, |settled|);
        settled[i].id in slides && slides[settled[i].id] == TopOf(settled, column.top, i) - settled[i].top
    {
      SlideMapValue(column, settled, draggedId, |settled|, i);
    }
    forall id | id in SlideMap(column, settled, draggedId, |settled|)
      ensures SlidIn(settled, draggedId, id, |settled|)
    {
      SlideMapKey(column, settled, draggedId, |settled|, id);
    }
  }

  // ---- Facts about boxes ----

  ghost predicate DistinctIds(cards: seq<CardBox>) {
    forall i, j :: 0 <= i < j < |cards| ==> cards[i].id != cards[j].id
  }

  lemma {:induction false} FindCardFinds(cards: seq<CardBox>, id: Id)
    ensures match FindCard(cards, id)
      case Some(card) => card in cards && card.id == id
      case None => forall card :: card in cards ==> card.id != id
  {
    if cards != [] {
      FindCardFinds(cards[1..], id);
      assert cards == [cards[0]] + cards[1..];
    }
  }

  lemma OnlyOneCard(cards: seq<CardBox>, card: CardBox)
    requires DistinctIds(cards) && card in cards
    ensures FindCard(cards, card.id) == Some(card)
  {
    FindCardFinds(cards, card.id);
    var found := FindCard(cards, card.id).value;
    var i :| 0 <= i < |cards| && cards[i] == card;
    var j :| 0 <= j < |cards| && cards[j] == found;
  }

  lemma {:induction false} WithoutCards(cards: seq<CardBox>, id: Id)
    ensures forall card :: card in Without(cards, id) <==> card in cards && card.id != id
    ensures DistinctIds(cards) ==> DistinctIds(Without(cards, id))
  {
    if cards != [] {
      assert cards == [cards[0]] + cards[1..];
      WithoutCards(cards[1..], id);
      if DistinctIds(cards) {
        var rest := Without(cards[1..], id);
        forall j | 0 <= j < |rest|
          ensures rest[j].id != cards[0].id
        {
          assert rest[j] in cards[1..];
          var k :| 0 <= k < |cards[1..]| && cards[1..][k] == rest[j];
        }
      }
    }
  }

  lemma {:induction false} DraggedIsOnBoard(snapshot: Snapshot, id: Id) returns (home: nat)
    requires FindOnBoard(snapshot, id).Some?
    ensures home < |snapshot| && SourceOf(snapshot, id) == Some(snapshot[home].status)
    ensures FindCard(snapshot[home].cards, id) == FindOnBoard(snapshot, id)
    ensures FindOnBoard(snapshot, id).value.id == id
  {
    if FindCard(snapshot[0].cards, id).Some? {
      home := 0;
      FindCardFinds(snapshot[0].cards, id);
    } else {
      var below := DraggedIsOnBoard(snapshot[1..], id);
      home := below + 1;
    }
  }

  /** Cards of two different columns have different ids. */
  lemma CardsApart(snapshot: Snapshot, k: nat, l: nat, id: Id)
    requires UniqueCards(snapshot) && k < |snapshot| && l < |snapshot| && k != l
    requires FindCard(snapshot[k].cards, id).Some?
    ensures FindCard(snapshot[l].cards, id).None?
  {
    FindCardFinds(snapshot[k].cards, id);
    FindCardFinds(snapshot[l].cards, id);
  }

  /** A settled column holds its own cards and the dragged one, each once. */
  lemma SettledCards(snapshot: Snapshot, k: nat, home: nat, dragged: CardBox, isTarget: bool, index: nat)
    requires UniqueCards(snapshot) && k < |snapshot| && home < |snapshot|
    requires FindCard(snapshot[home].cards, dragged.id) == Some(dragged)
    ensures var settled := Settled(snapshot[k], dragged, isTarget, index);
      && OwnCards(snapshot[k], settled, dragged.id)
      && (forall card :: card in settled ==> card == dragged || card in snapshot[k].cards)
  {
    var cards := snapshot[k].cards;
    var rest := Without(cards, dragged.id);
    assert DistinctIds(cards);
    WithoutCards(cards, dragged.id);
    forall card | card in rest
      ensures FindCard(cards, card.id) == Some(card)
    {
      OnlyOneCard(cards, card);
    }
    InsertedApart(rest, index, dragged);
  }

  lemma InsertedAt(rest: seq<CardBox>, index: nat, dragged: CardBox)
    ensures
      var list, at := InsertAt(rest, index, dragged), |Take(rest, index)|;
      && |list| == |rest| + 1 && at <= |rest| && list[at] == dragged
      && (forall i :: 0 <= i < at ==> list[i] == rest[i])
      && (forall i :: at < i < |list| ==> list[i] == rest[i - 1])
  {
    assert rest == Take(rest, index) + Drop(rest, index);
  }

  lemma InsertedApart(rest: seq<CardBox>, index: nat, dragged: CardBox)
    requires DistinctIds(rest) && forall card :: card in rest ==> card.id != dragged.id
    ensures DistinctIds(InsertAt(rest, index, dragged))
    ensures forall card :: card in InsertAt(rest, index, dragged) <==> card in rest || card == dragged
  {
    hide InsertAt, Take;
    var list, at := InsertAt(rest, index, dragged), |Take(rest, index)|;
    InsertedAt(rest, index, dragged);
    forall i, j | 0 <= i < j < |list|
      ensures list[i].id != list[j].id
    {
      if i == at {
        assert list[j] == rest[j - 1] && rest[j - 1] in rest;
      } else if j == at {
        assert list[i] == rest[i] && rest[i] in rest;
      }
    }
    forall card | card in rest
      ensures card in list
    {
      var i :| 0 <= i < |rest| && rest[i] == card;
      assert list[if i < at then i else i + 1] == card;
    }
  }

  lemma EarlierColumnsKept(snapshot: Snapshot, home: nat, dragged: CardBox, source: ProjectStatus, target: Target,
                           before: map<Id, real>, offsets: map<Id, real>, k: nat)
    requires UniqueCards(snapshot) && k < |snapshot| && home < |snapshot| && Involved(snapshot[k], source, target)
    requires FindCard(snapshot[home].cards, dragged.id) == Some(dragged)
    requires OffsetsFor(snapshot, dragged, source, target, before, k)
    requires var settled := Settled(snapshot[k], dragged, snapshot[k].status == target.status, target.index);
      && Slides(snapshot[k], settled, dragged.id, offsets, |settled|)
      && (forall id :: id in offsets <==> id in before || SlidIn(settled, dragged.id, id, |settled|))
      && (forall id :: id in before && !SlidIn(settled, dragged.id, id, |settled|) ==> offsets[id] == before[id])
    ensures OffsetsFor(snapshot, dragged, source, target, offsets, k + 1)
  {
    hide Settled, UniqueCards, TopOf, FindCard;
    var here := Settled(snapshot[k], dragged, snapshot[k].status == target.status, target.index);
    SettledCards(snapshot, k, home, dragged, snapshot[k].status == target.status, target.index);
    forall id | SlidIn(here, dragged.id, id, |here|)
      ensures FindCard(snapshot[k].cards, id).Some?
    {
      var i :| 0 <= i < |here| && here[i].id == id && id != dragged.id;
      assert here[i] in here;
    }
    forall c | 0 <= c < k && Involved(snapshot[c], source, target)
      ensures var settled := Settled(snapshot[c], dragged, snapshot[c].status == target.status, target.index);
        Slides(snapshot[c], settled, dragged.id, offsets, |settled|)
    {
      var settled := Settled(snapshot[c], dragged, snapshot[c].status == target.status, target.index);
      SettledCards(snapshot, c, home, dragged, snapshot[c].status == target.status, target.index);
      forall i | 0 <= i < |settled| && settled[i].id != dragged.id
        ensures settled[i].id in offsets && offsets[settled[i].id] == before[settled[i].id]
      {
        assert settled[i] in settled;
        CardsApart(snapshot, c, k, settled[i].id);
      }
    }
  }

  // ---- The drop commits what was previewed ----

  ghost function CardIds(cards: seq<CardBox>): seq<Id> {
    seq(|cards|, i requires 0 <= i < |cards| => cards[i].id)
  }

  /** The column map the snapshot was measured from. */
  ghost function BoardOf(snapshot: Snapshot): ColumnMap {
    map s: ProjectStatus :: ColumnIds(snapshot, s)
  }

  ghost function ColumnIds(snapshot: Snapshot, s: ProjectStatus): seq<Id> {
    if snapshot == [] then []
    else if snapshot[0].status == s then CardIds(snapshot[0].cards)
    else ColumnIds(snapshot[1..], s)
  }

  /** The measured height of a card. */
  ghost function HeightOf(snapshot: Snapshot, id: Id): real {
    match FindOnBoard(snapshot, id)
    case Some(card) => card.height
    case None => 0.0
  }

  /** Where the `p`-th id of a column starts once the list is laid out anew. */
  ghost function NewTop(snapshot: Snapshot, ids: seq<Id>, top: real, p: nat): real
    requires p <= |ids|
  {
    if p == 0 then top else NewTop(snapshot, ids, top, p - 1) + HeightOf(snapshot, ids[p - 1])
  }

  lemma {:induction false} ColumnIdsAt(snapshot: Snapshot, k: nat)
    requires UniqueCards(snapshot) && k < |snapshot|
    ensures ColumnIds(snapshot, snapshot[k].status) == CardIds(snapshot[k].cards)
  {
    if k > 0 {
      TailUnique(snapshot);
      ColumnIdsAt(snapshot[1..], k - 1);
    }
  }

  lemma TailUnique(snapshot: Snapshot)
    requires UniqueCards(snapshot) && snapshot != []
    ensures UniqueCards(snapshot[1..])
  {
    assert forall k :: 0 <= k < |snapshot[1..]| ==> snapshot[1..][k] == snapshot[k + 1];
  }

  lemma {:induction false} FindOnBoardAt(snapshot: Snapshot, k: nat, id: Id)
    requires UniqueCards(snapshot) && k < |snapshot| && FindCard(snapshot[k].cards, id).Some?
    ensures FindOnBoard(snapshot, id) == FindCard(snapshot[k].cards, id)
  {
    if k > 0 {
      CardsApart(snapshot, k, 0, id);
      TailUnique(snapshot);
      FindOnBoardAt(snapshot[1..], k - 1, id);
    }
  }

  lemma {:induction false} WithoutIds(cards: seq<CardBox>, id: Id)
    ensures CardIds(Without(cards, id)) == Omit(CardIds(cards), {id})
  {
    if cards != [] {
      assert CardIds(cards)[1..] == CardIds(cards[1..]);
      WithoutIds(cards[1..], id);
      if cards[0].id != id {
        assert CardIds([cards[0]] + Without(cards[1..], id)) == [cards[0].id] + CardIds(Without(cards[1..], id));
      }
    }
  }

  lemma InsertedIds(rest: seq<CardBox>, index: nat, dragged: CardBox)
    ensures CardIds(InsertAt(rest, index, dragged)) == InsertAt(CardIds(rest), Clamped(index, |rest|), dragged.id)
  {
  }

  /** The settled column lists the ids that `place` commits. */
  lemma SettledIsPlaced(column: ColumnBox, dragged: CardBox, isTarget: bool, index: nat)
    ensures CardIds(Settled(column, dragged, isTarget, index))
         == PlacedIn(CardIds(column.cards), dragged.id, isTarget, index)
  {
    WithoutIds(column.cards, dragged.id);
    if isTarget {
      InsertedIds(Without(column.cards, dragged.id), index, dragged);
    }
  }

  lemma {:induction false} SameTops(snapshot: Snapshot, settled: seq<CardBox>, top: real, p: nat)
    requires p <= |settled|
    requires forall card :: card in settled ==> HeightOf(snapshot, card.id) == card.height
    ensures NewTop(snapshot, CardIds(settled), top, p) == TopOf(settled, top, p)
  {
    if p > 0 {
      SameTops(snapshot, settled, top, p - 1);
      assert settled[p - 1] in settled;
    }
  }

  lemma SettledHeights(snapshot: Snapshot, k: nat, home: nat, dragged: CardBox, isTarget: bool, index: nat, card: CardBox)
    requires UniqueCards(snapshot) && k < |snapshot| && home < |snapshot|
    requires FindCard(snapshot[home].cards, dragged.id) == Some(dragged)
    requires card in Settled(snapshot[k], dragged, isTarget, index)
    ensures HeightOf(snapshot, card.id) == card.height
  {
    SettledCards(snapshot, k, home, dragged, isTarget, index);
    WithoutCards(snapshot[k].cards, dragged.id);
    if card.id == dragged.id {
      assert card == dragged;
      FindOnBoardAt(snapshot, home, dragged.id);
    } else {
      FindOnBoardAt(snapshot, k, card.id);
    }
  }

  lemma OthersSettle(cards: seq<CardBox>, column: ColumnBox, dragged: CardBox, isTarget: bool, index: nat, card: CardBox)
    requires DistinctIds(cards) && cards == column.cards && card in cards && card.id != dragged.id
    ensures card in Settled(column, dragged, isTarget, index)
  {
    WithoutCards(cards, dragged.id);
    InsertedApart(Without(cards, dragged.id), index, dragged);
  }

  /**
   * The preview is the drop: in the source and target columns, every card but
   * the lifted one, slid by its offset, starts where the committed column puts it.
   */
  lemma DropIsPreviewed(snapshot: Snapshot, draggedId: Id, target: Target, offsets: map<Id, real>, k: nat, card: CardBox)
    returns (p: nat)
    requires UniqueCards(snapshot) && FindOnBoard(snapshot, draggedId).Some? && SourceOf(snapshot, draggedId).Some?
    requires OffsetsFor(snapshot, FindOnBoard(snapshot, draggedId).value, SourceOf(snapshot, draggedId).value,
                        target, offsets, |snapshot|)
    requires k < |snapshot| && Involved(snapshot[k], SourceOf(snapshot, draggedId).value, target)
    requires card in snapshot[k].cards && card.id != draggedId
    ensures
      var committed := Placed(BoardOf(snapshot), draggedId, target.status, target.index)[snapshot[k].status];
      && p < |committed| && committed[p] == card.id && card.id in offsets
      && card.top + offsets[card.id] == NewTop(snapshot, committed, snapshot[k].top, p)
  {
    hide NewTop, TopOf, Settled, HeightOf, DistinctIds, Without;
    var dragged := FindOnBoard(snapshot, draggedId).value;
    var home := DraggedIsOnBoard(snapshot, draggedId);
    var isTarget := snapshot[k].status == target.status;
    var settled := Settled(snapshot[k], dragged, isTarget, target.index);
    OthersSettle(snapshot[k].cards, snapshot[k], dragged, isTarget, target.index, card);
    assert Slides(snapshot[k], settled, draggedId, offsets, |settled|);
    p :| 0 <= p < |settled| && settled[p] == card;
    forall c | c in settled
      ensures HeightOf(snapshot, c.id) == c.height
    {
      SettledHeights(snapshot, k, home, dragged, isTarget, target.index, c);
    }
    SettledIsPlaced(snapshot[k], dragged, isTarget, target.index);
    ColumnIdsAt(snapshot, k);
    SameTops(snapshot, settled, snapshot[k].top, p);
  }

  /** Every other column keeps its list, and none of its cards is given an offset. */
  lemma OtherColumnsStay(snapshot: Snapshot, draggedId: Id, target: Target, offsets: map<Id, real>, k: nat, card: CardBox)
    requires UniqueCards(snapshot) && FindOnBoard(snapshot, draggedId).Some? && SourceOf(snapshot, draggedId).Some?
    requires OffsetsFor(snapshot, FindOnBoard(snapshot, draggedId).value, SourceOf(snapshot, draggedId).value,
                        target, offsets, |snapshot|)
    requires k < |snapshot| && !Involved(snapshot[k], SourceOf(snapshot, draggedId).value, target)
    ensures Placed(BoardOf(snapshot), draggedId, target.status, target.index)[snapshot[k].status]
         == CardIds(snapshot[k].cards)
    ensures card in snapshot[k].cards ==> card.id !in offsets
  {
    var home := DraggedIsOnBoard(snapshot, draggedId);
    CardsApart(snapshot, home, k, draggedId);
    FindCardFinds(snapshot[k].cards, draggedId);
    ColumnIdsAt(snapshot, k);
    FilterAll(CardIds(snapshot[k].cards), Outside({draggedId}));
    if card in snapshot[k].cards && card.id in offsets {
      var l :| 0 <= l < |snapshot| && Involved(snapshot[l], SourceOf(snapshot, draggedId).value, target)
               && FindCard(snapshot[l].cards, card.id).Some?;
      CardsApart(snapshot, l, k, card.id);
      FindCardFinds(snapshot[k].cards, card.id);
      assert false;
    }
  }

  // ---- Releasing where the card was pressed ----

  lemma {:induction false} TopsGrow(cards: seq<CardBox>, top: real, i: nat, j: nat)
    requires i <= j <= |cards| && forall k :: 0 <= k < |cards| ==> cards[k].height > 0.0
    ensures TopOf(cards, top, i) <= TopOf(cards, top, j)
    ensures i < j ==> TopOf(cards, top, i) + cards[i].height <= TopOf(cards, top, j)
    decreases j
  {
    if i < j {
      TopsGrow(cards, top, i, j - 1);
    }
  }

  lemma {:induction false} WithoutAt(cards: seq<CardBox>, at: nat)
    requires DistinctIds(cards) && at < |cards|
    ensures Without(cards, cards[at].id) == cards[..at] + cards[at + 1..]
  {
    var rest := cards[1..];
    assert DistinctIds(rest);
    if at == 0 {
      FilterAll(rest, OtherThan(cards[0].id));
    } else {
      WithoutAt(rest, at - 1);
    }
  }

  /** A pointer inside the pressed card's own box asks for the card's own slot. */
  lemma OwnBoxIsOwnSlot(column: ColumnBox, at: nat, y: real, index: nat)
    requires LaidOut(column) && DistinctIds(column.cards) && at < |column.cards|
    requires column.cards[at].top <= y <= column.cards[at].top + column.cards[at].height
    requires SlotFor(Without(column.cards, column.cards[at].id), y, index)
    ensures index == at
  {
    var cards := column.cards;
    var rest := Without(cards, cards[at].id);
    WithoutAt(cards, at);
    if at + 1 < |cards| {
      assert rest[at] == cards[at + 1];
      TopsGrow(cards, column.top, at, at + 1);
    }
    if index < at {
      assert rest[index] == cards[index];
      TopsGrow(cards, column.top, index, at);
    }
  }

  lemma OwnSlotSettles(column: ColumnBox, at: nat)
    requires DistinctIds(column.cards) && at < |column.cards|
    ensures Settled(column, column.cards[at], true, at) == column.cards
  {
    WithoutAt(column.cards, at);
  }

  /** In its own slot the settled column is the column, so nothing slides. */
  lemma OwnSlotMovesNothing(column: ColumnBox, at: nat, offsets: map<Id, real>, card: CardBox)
    requires LaidOut(column) && DistinctIds(column.cards) && at < |column.cards|
    requires Slides(column, Settled(column, column.cards[at], true, at), column.cards[at].id, offsets,
                    |Settled(column, column.cards[at], true, at)|)
    requires card in column.cards && card.id != column.cards[at].id
    ensures Settled(column, column.cards[at], true, at) == column.cards
    ensures card.id in offsets && offsets[card.id] == 0.0
  {
    OwnSlotSettles(column, at);
    var i :| 0 <= i < |column.cards| && column.cards[i] == card;
  }

  /** No column is pointed at before this one. */
  ghost predicate PointsAt(snapshot: Snapshot, x: real, k: nat) {
    k < |snapshot| && Contains(snapshot[k], x) && forall j :: 0 <= j < k ==> !Contains(snapshot[j], x)
  }

  lemma PointedColumn(snapshot: Snapshot, draggedId: Id, x: real, y: real, target: Option<Target>, at: nat, home: nat)
    requires Resolves(snapshot, draggedId, x, y, target, at) && PointsAt(snapshot, x, home)
    ensures target.Some? && at == home
  {
    assert Contains(snapshot[home], x);
  }

  lemma CardIsFound(snapshot: Snapshot, home: nat, at: nat)
    requires UniqueCards(snapshot) && home < |snapshot| && at < |snapshot[home].cards|
    ensures
      var card := snapshot[home].cards[at];
      && FindOnBoard(snapshot, card.id) == Some(card)
      && SourceOf(snapshot, card.id) == Some(snapshot[home].status)
    decreases home
  {
    var card := snapshot[home].cards[at];
    FindCardFinds(snapshot[0].cards, card.id);
    if home > 0 {
      TailUnique(snapshot);
      CardIsFound(snapshot[1..], home - 1, at);
    }
  }

  /**
   * Press and release end to end: with the pointer still in the pressed card's box,
   * the resolved target is the card's own column and index, every offset is zero,
   * and the drop commits the board as it was.
   */
  lemma ReleasedInPlace(snapshot: Snapshot, home: nat, at: nat, x: real, y: real,
                        target: Option<Target>, chosen: nat, offsets: map<Id, real>)
    requires UniqueCards(snapshot) && home < |snapshot| && PointsAt(snapshot, x, home)
    requires LaidOut(snapshot[home]) && at < |snapshot[home].cards|
    requires
      var card := snapshot[home].cards[at];
      && card.top <= y <= card.top + card.height
      && Resolves(snapshot, card.id, x, y, target, chosen)
      && FindOnBoard(snapshot, card.id).Some? && SourceOf(snapshot, card.id).Some?
      && (target.Some? ==>
            OffsetsFor(snapshot, FindOnBoard(snapshot, card.id).value, SourceOf(snapshot, card.id).value,
                       target.value, offsets, |snapshot|))
    ensures target == Some(Target(snapshot[home].status, at))
    ensures forall id :: id in offsets ==> offsets[id] == 0.0
    ensures Placed(BoardOf(snapshot), snapshot[home].cards[at].id, snapshot[home].status, at) == BoardOf(snapshot)
  {
    hide Resolves, OffsetsFor, UniqueCards, LaidOut, Placed, BoardOf, FindOnBoard, SourceOf, PointsAt;
    var card := snapshot[home].cards[at];
    CardIsFound(snapshot, home, at);
    PointedColumn(snapshot, card.id, x, y, target, chosen, home);
    HomeIsDistinct(snapshot, home);
    ResolvedSlot(snapshot, card.id, x, y, target, chosen);
    OwnBoxIsOwnSlot(snapshot[home], at, y, target.value.index);
    forall id | id in offsets
      ensures offsets[id] == 0.0
    {
      OwnOffsetIsZero(snapshot, home, at, offsets, id);
    }
    InPlaceIsCommitted(snapshot, home, at);
  }

  lemma HomeIsDistinct(snapshot: Snapshot, home: nat)
    requires UniqueCards(snapshot) && home < |snapshot|
    ensures DistinctIds(snapshot[home].cards)
  {
  }

  lemma ResolvedSlot(snapshot: Snapshot, draggedId: Id, x: real, y: real, target: Option<Target>, at: nat)
    requires Resolves(snapshot, draggedId, x, y, target, at) && target.Some?
    ensures at < |snapshot| && target.value.status == snapshot[at].status
    ensures SlotFor(Without(snapshot[at].cards, draggedId), y, target.value.index)
  {
  }

  lemma OwnOffsetIsZero(snapshot: Snapshot, home: nat, at: nat, offsets: map<Id, real>, id: Id)
    requires UniqueCards(snapshot) && home < |snapshot| && LaidOut(snapshot[home]) && at < |snapshot[home].cards|
    requires OffsetsFor(snapshot, snapshot[home].cards[at], snapshot[home].status,
                        Target(snapshot[home].status, at), offsets, |snapshot|)
    requires id in offsets
    ensures offsets[id] == 0.0
  {
    hide LaidOut, Settled;
    var column, target := snapshot[home], Target(snapshot[home].status, at);
    var k :| 0 <= k < |snapshot| && Involved(snapshot[k], column.status, target) && FindCard(snapshot[k].cards, id).Some?;
    assert k == home;
    FindCardFinds(column.cards, id);
    HomeIsDistinct(snapshot, home);
    OwnSlotMovesNothing(column, at, offsets, FindCard(column.cards, id).value);
  }

  lemma InPlaceIsCommitted(snapshot: Snapshot, home: nat, at: nat)
    requires UniqueCards(snapshot) && home < |snapshot| && at < |snapshot[home].cards|
    ensures Placed(BoardOf(snapshot), snapshot[home].cards[at].id, snapshot[home].status, at) == BoardOf(snapshot)
  {
    var card, status := snapshot[home].cards[at], snapshot[home].status;
    var board := BoardOf(snapshot);
    forall s: ProjectStatus
      ensures Placed(board, card.id, status, at)[s] == board[s]
    {
      ColumnIdsAt(snapshot, home);
      if s == status {
        HomeIsDistinct(snapshot, home);
        OwnSlotSettles(snapshot[home], at);
        SettledIsPlaced(snapshot[home], card, true, at);
      } else {
        NotInOtherColumns(snapshot, home, at, s);
        FilterAll(board[s], Outside({card.id}));
      }
    }
  }

  /** The column of another status does not list the card. */
  lemma NotInOtherColumns(snapshot: Snapshot, home: nat, at: nat, s: ProjectStatus)
    requires UniqueCards(snapshot) && home < |snapshot| && at < |snapshot[home].cards| && s != snapshot[home].status
    ensures snapshot[home].cards[at].id !in ColumnIds(snapshot, s)
  {
    if k :| 0 <= k < |snapshot| && snapshot[k].status == s {
      ColumnIdsAt(snapshot, k);
      assert k != home;
    } else {
      NoColumn(snapshot, s);
    }
  }

  lemma {:induction false} NoColumn(snapshot: Snapshot, s: ProjectStatus)
    requires forall k :: 0 <= k < |snapshot| ==> snapshot[k].status != s
    ensures ColumnIds(snapshot, s) == []
  {
    if snapshot != [] {
      NoColumn(snapshot[1..], s);
    }
  }
}
