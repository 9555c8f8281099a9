/** The live message list: what the reader sees when history and broadcasts disagree. */
module ChatList {
  import opened Lists
  import opened Prelude
  import opened Sorting

  datatype ChatMessage = ChatMessage(id: string, createdAt: string, content: Option<string>, deleted: bool,
                                     clientId: Option<string>)

  /** `localeCompare`, as an order on strings. */
  type Collation = (string, string) -> bool

  ghost predicate IsCollation(le: Collation) {
    TotalPreorder(le) && forall a, b :: le(a, b) && le(b, a) ==> a == b
  }

  function ByTime(le: Collation): (ChatMessage, ChatMessage) -> bool {
    (a: ChatMessage, b: ChatMessage) => if a.createdAt == b.createdAt then le(a.id, b.id) else le(a.createdAt, b.createdAt)
  }

  function PendingId(clientId: string): string {
    "pending:" + clientId
  }

  /** The bubble an echo of this message replaces. */
  function BubbleOf(message: ChatMessage): Option<string> {
    if message.clientId.Some? && message.clientId.value != "" then Some(PendingId(message.clientId.value)) else None
  }

  function Untouched(message: ChatMessage): ChatMessage -> bool {
    (row: ChatMessage) => row.id != message.id && BubbleOf(message) != Some(row.id)
  }

  function AppendMessage(list: seq<ChatMessage>, message: ChatMessage, le: Collation): seq<ChatMessage> {
    Sort(Filter(list, Untouched(message)) + [message], ByTime(le))
  }

  function Map(list: seq<ChatMessage>, f: ChatMessage -> ChatMessage): seq<ChatMessage> {
    seq(|list|, i requires 0 <= i < |list| => f(list[i]))
  }

  function Replacing(message: ChatMessage): ChatMessage -> ChatMessage {
    (row: ChatMessage) => if row.id == message.id then message else row
  }

  function ReplaceMessage(list: seq<ChatMessage>, message: ChatMessage): seq<ChatMessage> {
    Map(list, Replacing(message))
  }

  function Emptied(row: ChatMessage): ChatMessage {
    row.(content := None, deleted := true)
  }

  function Emptying(id: string): ChatMessage -> ChatMessage {
    (row: ChatMessage) => if row.id == id then Emptied(row) else row
  }

  function TombstoneMessage(list: seq<ChatMessage>, id: string): seq<ChatMessage> {
    Map(list, Emptying(id))
  }

  function IdsIn(list: seq<ChatMessage>): set<string> {
    set row | row in list :: row.id
  }

  function NotIn(held: set<string>): ChatMessage -> bool {
    (row: ChatMessage) => row.id !in held
  }

  function MergeOlder(list: seq<ChatMessage>, page: seq<ChatMessage>, le: Collation): seq<ChatMessage> {
    Sort(Filter(page, NotIn(IdsIn(list))) + list, ByTime(le))
  }

  function OtherThan(id: string): ChatMessage -> bool {
    (row: ChatMessage) => row.id != id
  }

  function DropPending(list: seq<ChatMessage>, clientId: string): seq<ChatMessage> {
    Filter(list, OtherThan(PendingId(clientId)))
  }

  // ---- What a run of events leaves ----

  datatype Event =
    | Append(message: ChatMessage)
    | Older(page: seq<ChatMessage>)
    | Replace(message: ChatMessage)
    | Tombstone(id: string)
    | Refused(clientId: string)

  function Apply(list: seq<ChatMessage>, e: Event, le: Collation): seq<ChatMessage> {
    match e
    case Append(message) => AppendMessage(list, message, le)
    case Older(page) => MergeOlder(list, page, le)
    case Replace(message) => ReplaceMessage(list, message)
    case Tombstone(id) => TombstoneMessage(list, id)
    case Refused(clientId) => DropPending(list, clientId)
  }

  function Run(list: seq<ChatMessage>, events: seq<Event>, le: Collation): seq<ChatMessage>
    decreases |events|
  {
    if events == [] then list else Run(Apply(list, events[0], le), events[1..], le)
  }

  function Lookup(list: seq<ChatMessage>, id: string): Option<ChatMessage> {
    if list == [] then None else if list[0].id == id then Some(list[0]) else Lookup(list[1..], id)
  }

  /** What one event makes of the version of one message held so far, whatever else is in the list. */
  function Version(held: Option<ChatMessage>, e: Event, id: string): Option<ChatMessage> {
    match e
    case Append(message) =>
      if id == message.id then Some(message)
      else if message.clientId.Some? && message.clientId.value != "" && id == "pending:" + message.clientId.value then None
      else held
    case Older(page) => if held.Some? then held else Lookup(page, id)
    case Replace(message) => if held.Some? && id == message.id then Some(message) else held
    case Tombstone(gone) =>
      if held.Some? && id == gone then Some(held.value.(content := None, deleted := true)) else held
    case Refused(clientId) => if id == "pending:" + clientId then None else held
  }

  function Versions(held: Option<ChatMessage>, events: seq<Event>, id: string): Option<ChatMessage>
    decreases |events|
  {
    if events == [] then held else Versions(Version(held, events[0], id), events[1..], id)
  }

  /** No message twice, and no id twice. */
  ghost predicate UniqueIds(list: seq<ChatMessage>) {
    Distinct(list) && forall a, b :: a in list && b in list && a.id == b.id ==> a == b
  }

  /** Earlier, or at the same time with the lower id. */
  ghost predicate ComesBefore(a: ChatMessage, b: ChatMessage, le: Collation) {
    if a.createdAt == b.createdAt then a.id != b.id && le(a.id, b.id) else le(a.createdAt, b.createdAt)
  }

  lemma OkIsOrdered(list: seq<ChatMessage>, le: Collation)
    requires ListOk(list, le)
    ensures forall i, j :: 0 <= i < j < |list| ==> ComesBefore(list[i], list[j], le)
  {
    forall i, j | 0 <= i < j < |list|
      ensures ComesBefore(list[i], list[j], le)
    {
      assert list[i] in list && list[j] in list && list[i] != list[j];
      assert ByTime(le)(list[i], list[j]);
    }
  }

  ghost predicate ListOk(list: seq<ChatMessage>, le: Collation) {
    UniqueIds(list) && Sorted(list, ByTime(le))
  }

  /** A page lists an id once, and an edit leaves the message's time alone. */
  ghost predicate EventOk(list: seq<ChatMessage>, e: Event) {
    match e
    case Older(page) => UniqueIds(page)
    case Replace(message) => forall row :: row in list && row.id == message.id ==> row.createdAt == message.createdAt
    case _ => true
  }

  ghost predicate RunOk(list: seq<ChatMessage>, events: seq<Event>, le: Collation)
    decreases |events|
  {
    events == [] || (EventOk(list, events[0]) && RunOk(Apply(list, events[0], le), events[1..], le))
  }

  lemma {:induction false} LookupFinds(list: seq<ChatMessage>, id: string)
    ensures Lookup(list, id).Some? ==> Lookup(list, id).value in list && Lookup(list, id).value.id == id
    ensures Lookup(list, id).None? ==> forall row :: row in list ==> row.id != id
  {
    if list != [] && list[0].id != id {
      LookupFinds(list[1..], id);
      assert list == [list[0]] + list[1..];
    }
  }

  lemma LookupIs(list: seq<ChatMessage>, row: ChatMessage)
    requires UniqueIds(list)
    ensures row in list <==> Lookup(list, row.id) == Some(row)
  {
    LookupFinds(list, row.id);
  }

  lemma ByTimeIsOrder(le: Collation)
    requires IsCollation(le)
    ensures TotalPreorder(ByTime(le))
  {
    forall a, b
      ensures ByTime(le)(a, b) || ByTime(le)(b, a)
    {
      assert le(a.id, b.id) || le(b.id, a.id);
      assert le(a.createdAt, b.createdAt) || le(b.createdAt, a.createdAt);
    }
    forall a, b, c | ByTime(le)(a, b) && ByTime(le)(b, c)
      ensures ByTime(le)(a, c)
    {
      Transitive(a, b, c, le);
    }
  }

  lemma Transitive(a: ChatMessage, b: ChatMessage, c: ChatMessage, le: Collation)
    requires IsCollation(le) && ByTime(le)(a, b) && ByTime(le)(b, c)
    ensures ByTime(le)(a, c)
  {
    if a.createdAt != b.createdAt && b.createdAt != c.createdAt {
      assert le(a.createdAt, c.createdAt);
      assert a.createdAt != c.createdAt;
    }
  }

  lemma UniqueMeansNoTies(list: seq<ChatMessage>, le: Collation)
    requires IsCollation(le) && UniqueIds(list)
    ensures NoTies(list, ByTime(le))
  {
  }

  /** An ordered list without repeated ids is settled by its members. */
  lemma SameMembersSameList(a: seq<ChatMessage>, b: seq<ChatMessage>, le: Collation)
    requires IsCollation(le) && ListOk(a, le) && ListOk(b, le)
    requires forall row :: row in a <==> row in b
    ensures a == b
  {
    forall row
      ensures multiset(a)[row] == multiset(b)[row]
    {
      DistinctCounts(a, row);
      DistinctCounts(b, row);
    }
    ByTimeIsOrder(le);
    UniqueMeansNoTies(a, le);
    SortedUnique(a, b, ByTime(le));
  }

  lemma SortedListIsOk(list: seq<ChatMessage>, le: Collation)
    requires IsCollation(le) && UniqueIds(list)
    ensures ListOk(Sort(list, ByTime(le)), le)
    ensures forall row :: row in Sort(list, ByTime(le)) <==> row in list
  {
    ByTimeIsOrder(le);
    SortSorts(list, ByTime(le));
    PermutationDistinct(list, Sort(list, ByTime(le)));
  }

  lemma DistinctConcat(a: seq<ChatMessage>, b: seq<ChatMessage>)
    requires UniqueIds(a) && UniqueIds(b)
    requires forall x, y :: x in a && y in b ==> x.id != y.id
    ensures UniqueIds(a + b)
  {
    forall i, j | 0 <= i < j < |a + b|
      ensures (a + b)[i] != (a + b)[j]
    {
      if i < |a| <= j {
        assert a[i] in a && b[j - |a|] in b;
      }
    }
  }

  lemma FilterUnique(list: seq<ChatMessage>, p: ChatMessage -> bool)
    requires UniqueIds(list)
    ensures UniqueIds(Filter(list, p))
  {
    FilterDistinct(list, p);
    FilterMembers(list, p);
  }

  lemma {:induction false} FilterKeepsOrder(list: seq<ChatMessage>, p: ChatMessage -> bool, le: Collation)
    requires Sorted(list, ByTime(le))
    ensures Sorted(Filter(list, p), ByTime(le))
  {
    if list != [] {
      FilterKeepsOrder(list[1..], p, le);
      FilterMembers(list[1..], p);
      var rest := Filter(list[1..], p);
      forall j | 0 <= j < |rest|
        ensures ByTime(le)(list[0], rest[j])
      {
        assert rest[j] in rest;
        var k :| 0 <= k < |list[1..]| && list[1..][k] == rest[j];
        assert list[k + 1] == rest[j];
      }
    }
  }

  lemma AppendRefines(list: seq<ChatMessage>, message: ChatMessage, le: Collation)
    requires IsCollation(le) && ListOk(list, le)
    ensures
      var next := AppendMessage(list, message, le);
      && ListOk(next, le)
      && (forall row :: row in next <==> row == message || (row in list && Untouched(message)(row)))
  {
    var kept := Filter(list, Untouched(message));
    FilterUnique(list, Untouched(message));
    FilterMembers(list, Untouched(message));
    DistinctConcat(kept, [message]);
    SortedListIsOk(kept + [message], le);
  }

  lemma OlderRefines(list: seq<ChatMessage>, page: seq<ChatMessage>, le: Collation)
    requires IsCollation(le) && ListOk(list, le) && UniqueIds(page)
    ensures
      var next := MergeOlder(list, page, le);
      && ListOk(next, le)
      && (forall row :: row in next <==> row in list || (row in page && row.id !in IdsIn(list)))
  {
    var added := Filter(page, NotIn(IdsIn(list)));
    FilterUnique(page, NotIn(IdsIn(list)));
    FilterMembers(page, NotIn(IdsIn(list)));
    DistinctConcat(added, list);
    SortedListIsOk(added + list, le);
  }

  /** A rewrite that keeps ids and times keeps the list in order. */
  lemma MapKeepsOk(list: seq<ChatMessage>, f: ChatMessage -> ChatMessage, le: Collation)
    requires ListOk(list, le)
    requires forall row :: row in list ==> f(row).id == row.id && f(row).createdAt == row.createdAt
    ensures ListOk(Map(list, f), le)
  {
    var next := Map(list, f);
    forall i, j | 0 <= i < j < |next|
      ensures next[i].id != next[j].id && ByTime(le)(next[i], next[j])
    {
      assert list[i] in list && list[j] in list;
      assert ByTime(le)(list[i], list[j]);
    }
  }

  /**
   * One event changes the list as it changes each message's version on its own,
   * and leaves it in order without repeated ids.
   */
  lemma EventRefines(list: seq<ChatMessage>, e: Event, le: Collation, row: ChatMessage)
    requires IsCollation(le) && ListOk(list, le) && EventOk(list, e)
    ensures ListOk(Apply(list, e, le), le)
    ensures row in Apply(list, e, le) <==> Version(Lookup(list, row.id), e, row.id) == Some(row)
  {
    LookupIs(list, row);
    LookupFinds(list, row.id);
    match e
    case Append(message) =>
      AppendRefines(list, message, le);
    case Older(page) =>
      OlderRefines(list, page, le);
      LookupIs(page, row);
      assert row.id in IdsIn(list) <==> Lookup(list, row.id).Some?;
    case Replace(message) =>
      MapKeepsOk(list, Replacing(message), le);
      MapMember(list, Replacing(message), row);
    case Tombstone(id) =>
      MapKeepsOk(list, Emptying(id), le);
      MapMember(list, Emptying(id), row);
    case Refused(clientId) =>
      FilterUnique(list, OtherThan(PendingId(clientId)));
      FilterMembers(list, OtherThan(PendingId(clientId)));
      FilterKeepsOrder(list, OtherThan(PendingId(clientId)), le);
  }

  lemma MapMember(list: seq<ChatMessage>, f: ChatMessage -> ChatMessage, row: ChatMessage)
    requires UniqueIds(list) && forall x :: x in list ==> f(x).id == x.id
    ensures row in Map(list, f) <==> Lookup(list, row.id).Some? && f(Lookup(list, row.id).value) == row
  {
    LookupFinds(list, row.id);
    if row in Map(list, f) {
      var i :| 0 <= i < |list| && f(list[i]) == row;
      assert list[i] in list;
      LookupIs(list, list[i]);
    } else if Lookup(list, row.id).Some? {
      var i :| 0 <= i < |list| && list[i] == Lookup(list, row.id).value;
      assert Map(list, f)[i] == f(list[i]);
    }
  }

  lemma LookupAfter(list: seq<ChatMessage>, e: Event, le: Collation, id: string)
    requires IsCollation(le) && ListOk(list, le) && EventOk(list, e)
    ensures Lookup(Apply(list, e, le), id) == Version(Lookup(list, id), e, id)
  {
    var next, version := Apply(list, e, le), Version(Lookup(list, id), e, id);
    LookupFinds(next, id);
    VersionHasId(list, e, id);
    if version.Some? {
      EventRefines(list, e, le, version.value);
      LookupIs(next, version.value);
    } else if Lookup(next, id).Some? {
      EventRefines(list, e, le, Lookup(next, id).value);
    }
  }

  lemma VersionHasId(list: seq<ChatMessage>, e: Event, id: string)
    ensures Version(Lookup(list, id), e, id).Some? ==> Version(Lookup(list, id), e, id).value.id == id
  {
    LookupFinds(list, id);
    if e.Older? {
      LookupFinds(e.page, id);
    }
  }

  /**
   * After any run of events the list is in (createdAt, id) order without
   * repeated ids, and holds exactly the version each message's own events left.
   */
  lemma {:induction false} RunHoldsTheVersions(list: seq<ChatMessage>, events: seq<Event>, le: Collation)
    requires IsCollation(le) && ListOk(list, le) && RunOk(list, events, le)
    ensures ListOk(Run(list, events, le), le)
    ensures forall i, j :: 0 <= i < j < |Run(list, events, le)| ==>
              ComesBefore(Run(list, events, le)[i], Run(list, events, le)[j], le)
    ensures forall row :: row in Run(list, events, le) <==> Versions(Lookup(list, row.id), events, row.id) == Some(row)
    decreases |events|
  {
    hide ComesBefore;
    if events == [] {
      forall row
        ensures row in list <==> Lookup(list, row.id) == Some(row)
      {
        LookupIs(list, row);
      }
      OkIsOrdered(list, le);
    } else {
      var next := Apply(list, events[0], le);
      forall row: ChatMessage
        ensures ListOk(next, le)
        ensures Lookup(next, row.id) == Version(Lookup(list, row.id), events[0], row.id)
      {
        EventRefines(list, events[0], le, row);
        LookupAfter(list, events[0], le, row.id);
      }
      assert ListOk(next, le) by {
        EventRefines(list, events[0], le, ChatMessage("", "", None, false, None));
      }
      RunHoldsTheVersions(next, events[1..], le);
    }
  }

  // ---- Any order of delivery ----

  ghost predicate Delivery(e: Event) {
    e.Append? || e.Older?
  }

  ghost predicate Appended(events: seq<Event>, m: ChatMessage) {
    exists e :: e in events && e.Append? && e.message == m
  }

  ghost predicate Paged(events: seq<Event>, m: ChatMessage) {
    exists e :: e in events && e.Older? && m in e.page
  }

  /** History and broadcasts each tell one story about an id, and no id looks like a bubble's. */
  ghost predicate OneStory(events: seq<Event>) {
    && (forall e :: e in events ==> Delivery(e) && (e.Older? ==> UniqueIds(e.page)))
    && (forall a, b :: Appended(events, a) && Appended(events, b) && a.id == b.id ==> a == b)
    && (forall a, b :: Paged(events, a) && Paged(events, b) && a.id == b.id ==> a == b)
    && (forall a, c :: (Appended(events, a) || Paged(events, a)) && Appended(events, c) ==> BubbleOf(c) != Some(a.id))
  }

  lemma OneStoryTail(events: seq<Event>)
    requires OneStory(events) && events != []
    ensures OneStory(events[1..]) && Delivery(events[0])
    ensures forall m :: Appended(events, m) <==> events[0] == Append(m) || Appended(events[1..], m)
    ensures forall m :: Paged(events, m) <==> (events[0].Older? && m in events[0].page) || Paged(events[1..], m)
  {
    assert events == [events[0]] + events[1..];
    assert forall e :: e in events <==> e == events[0] || e in events[1..];
    assert events[0] in events;
  }

  ghost predicate TouchesBubble(events: seq<Event>, id: string) {
    exists c :: Appended(events, c) && BubbleOf(c) == Some(id)
  }

  ghost predicate AppendsId(events: seq<Event>, id: string) {
    exists a :: Appended(events, a) && a.id == id
  }

  ghost predicate PagesId(events: seq<Event>, id: string) {
    exists a :: Paged(events, a) && a.id == id
  }

  /** An appended version wins whenever it comes; a paged one only fills a gap. */
  lemma {:induction false} StoryVersion(held: Option<ChatMessage>, events: seq<Event>, id: string, m: ChatMessage)
    requires OneStory(events) && !TouchesBubble(events, id) && m.id == id
    ensures Appended(events, m) ==> Versions(held, events, id) == Some(m)
    ensures !AppendsId(events, id) && held.Some? ==> Versions(held, events, id) == held
    ensures !AppendsId(events, id) && held.None? && Paged(events, m) ==> Versions(held, events, id) == Some(m)
    decreases |events|
  {
    hide OneStory, UniqueIds;
    if events != [] {
      OneStoryTail(events);
      StoryVersion(Version(held, events[0], id), events[1..], id, m);
      if events[0].Append? {
        assert Appended(events, events[0].message);
        if events[0].message.id == id && Appended(events, m) {
          OneAppended(events, events[0].message, m);
          if AppendsId(events[1..], id) {
            var a :| Appended(events[1..], a) && a.id == id;
            OneAppended(events, a, m);
          }
        }
      } else if Paged(events, m) {
        PageVersion(events, m);
      }
    }
  }

  lemma OneAppended(events: seq<Event>, a: ChatMessage, b: ChatMessage)
    requires OneStory(events) && Appended(events, a) && Appended(events, b) && a.id == b.id
    ensures a == b
  {
  }

  lemma PageVersion(events: seq<Event>, m: ChatMessage)
    requires OneStory(events) && events != [] && events[0].Older? && Paged(events, m)
    ensures Lookup(events[0].page, m.id) == if m in events[0].page then Some(m) else None
  {
    var page := events[0].page;
    assert events[0] in events;
    LookupFinds(page, m.id);
    if Lookup(page, m.id).Some? {
      assert Paged(events, Lookup(page, m.id).value);
    }
  }

  lemma {:induction false} NeverDelivered(events: seq<Event>, id: string)
    requires forall e :: e in events ==> Delivery(e)
    requires !AppendsId(events, id) && !PagesId(events, id)
    ensures Versions(None, events, id) == None
    decreases |events|
  {
    if events != [] {
      assert events[0] in events;
      match events[0] {
        case Append(message) =>
          assert Appended(events, message);
        case Older(page) =>
          LookupFinds(page, id);
          assert forall m :: m in page ==> Paged(events, m);
      }
      TailDelivers(events, id);
      NeverDelivered(events[1..], id);
    }
  }

  lemma TailDelivers(events: seq<Event>, id: string)
    requires events != []
    ensures AppendsId(events[1..], id) ==> AppendsId(events, id)
    ensures PagesId(events[1..], id) ==> PagesId(events, id)
  {
    if a :| Appended(events[1..], a) && a.id == id {
      assert Appended(events, a);
    }
    if a :| Paged(events[1..], a) && a.id == id {
      assert Paged(events, a);
    }
  }

  lemma {:induction false} DeliveriesAreOk(list: seq<ChatMessage>, events: seq<Event>, le: Collation)
    requires forall e :: e in events ==> Delivery(e) && (e.Older? ==> UniqueIds(e.page))
    ensures RunOk(list, events, le)
    decreases |events|
  {
    if events != [] {
      assert events[0] in events;
      DeliveriesAreOk(Apply(list, events[0], le), events[1..], le);
    }
  }

  lemma SameVersion(e1: seq<Event>, e2: seq<Event>, id: string)
    requires OneStory(e1) && OneStory(e2)
    requires forall m :: (Appended(e1, m) <==> Appended(e2, m)) && (Paged(e1, m) <==> Paged(e2, m))
    ensures Versions(None, e1, id) == Versions(None, e2, id)
  {
    if a :| Appended(e1, a) && a.id == id {
      StoryVersion(None, e1, id, a);
      StoryVersion(None, e2, id, a);
    } else if o :| Paged(e1, o) && o.id == id {
      StoryVersion(None, e1, id, o);
      StoryVersion(None, e2, id, o);
    } else {
      NeverDelivered(e1, id);
      NeverDelivered(e2, id);
    }
  }

  /** Delivering the same messages in any order, split into pages in any way, ends in the same list. */
  lemma AnyOrderSameList(e1: seq<Event>, e2: seq<Event>, le: Collation)
    requires IsCollation(le) && OneStory(e1) && OneStory(e2)
    requires forall m :: (Appended(e1, m) <==> Appended(e2, m)) && (Paged(e1, m) <==> Paged(e2, m))
    ensures Run([], e1, le) == Run([], e2, le)
  {
    hide Versions, Version, Run, RunOk;
    DeliveriesAreOk([], e1, le);
    DeliveriesAreOk([], e2, le);
    RunHoldsTheVersions([], e1, le);
    RunHoldsTheVersions([], e2, le);
    forall row: ChatMessage
      ensures Versions(None, e1, row.id) == Versions(None, e2, row.id)
    {
      SameVersion(e1, e2, row.id);
    }
    SameMembersSameList(Run([], e1, le), Run([], e2, le), le);
  }

  /** The list ends up with the appended version of every broadcast message and the paged version of the others. */
  lemma DeliveredVersions(events: seq<Event>, le: Collation, m: ChatMessage)
    requires IsCollation(le) && OneStory(events)
    ensures m in Run([], events, le) <==> Appended(events, m) || (Paged(events, m) && !AppendsId(events, m.id))
  {
    DeliveriesAreOk([], events, le);
    RunHoldsTheVersions([], events, le);
    if a :| Appended(events, a) && a.id == m.id {
      StoryVersion(None, events, m.id, a);
    } else if o :| Paged(events, o) && o.id == m.id {
      StoryVersion(None, events, m.id, o);
    } else {
      NeverDelivered(events, m.id);
    }
  }

  // ---- The sender's bubble ----

  /** An echo takes the place of its bubble: the bubble goes, the message is there once, the rest stays. */
  lemma EchoReplacesBubble(list: seq<ChatMessage>, echo: ChatMessage, le: Collation)
    requires IsCollation(le) && ListOk(list, le)
    requires echo.clientId.Some? && echo.clientId.value != "" && echo.id != "pending:" + echo.clientId.value
    ensures
      var next, bubble := AppendMessage(list, echo, le), "pending:" + echo.clientId.value;
      && (forall row :: row in next ==> row.id != bubble)
      && multiset(next)[echo] == 1
      && (forall row :: row in next && row.id == echo.id ==> row == echo)
      && (forall row :: row in list && row.id != echo.id && row.id != bubble ==> row in next)
  {
    AppendRefines(list, echo, le);
    DistinctCounts(AppendMessage(list, echo, le), echo);
  }

  ghost predicate Delivers(e: Event, id: string) {
    match e
    case Append(message) => message.id == id
    case Older(page) => exists row :: row in page && row.id == id
    case _ => false
  }

  lemma NotDelivered(e: Event, id: string)
    requires !Delivers(e, id)
    ensures Version(None, e, id) == None
  {
    if e.Older? {
      LookupFinds(e.page, id);
    }
  }

  /** Once gone, a message stays gone until an event delivers its id again. */
  lemma {:induction false} GoneStaysGone(list: seq<ChatMessage>, events: seq<Event>, le: Collation, id: string)
    requires IsCollation(le) && ListOk(list, le) && RunOk(list, events, le)
    requires forall row :: row in list ==> row.id != id
    requires forall e :: e in events ==> !Delivers(e, id)
    ensures forall row :: row in Run(list, events, le) ==> row.id != id
    decreases |events|
  {
    hide Apply, ListOk, IsCollation, Version, Delivers, EventOk, Lookup;
    if events != [] {
      var next := Apply(list, events[0], le);
      assert events[0] in events;
      LookupFinds(list, id);
      LookupAfter(list, events[0], le, id);
      LookupFinds(next, id);
      NotDelivered(events[0], id);
      EventRefines(list, events[0], le, ChatMessage("", "", None, false, None));
      GoneStaysGone(next, events[1..], le, id);
    }
  }
}
