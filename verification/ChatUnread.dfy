/** Unread counts: one workspace at a time, and all of a user's workspaces in one joined query. */
module ChatUnread {
  import opened Lists
  import opened Prelude

  type Id = string
  type Time = int

  datatype Workspace = Workspace(id: Id, name: string, icon: string, deletedAt: Option<Time>)
  datatype Membership = Membership(userId: Id, workspaceId: Id)
  datatype MessageRead = MessageRead(userId: Id, workspaceId: Id, lastReadAt: Option<Time>)
  datatype Message = Message(id: Id, workspaceId: Id, senderId: Option<Id>, createdAt: Time, deletedAt: Option<Time>)

  datatype Db = Db(workspaces: seq<Workspace>, memberships: seq<Membership>,
                   readStates: seq<MessageRead>, messages: seq<Message>)

  // ---- SQL's three truth values; a NULL operand makes a comparison unknown ----

  datatype Truth = Yes | No | Unknown

  function Truthy(b: bool): Truth {
    if b then Yes else No
  }

  function And(a: Truth, b: Truth): Truth {
    if a == No || b == No then No else if a == Yes && b == Yes then Yes else Unknown
  }

  function Or(a: Truth, b: Truth): Truth {
    if a == Yes || b == Yes then Yes else if a == No && b == No then No else Unknown
  }

  /** Unknown is neither: a conjunction fails only on a failing part, a disjunction only on both. */
  lemma TruthTables(a: Truth, b: Truth)
    ensures And(a, b) == Yes <==> a == Yes && b == Yes
    ensures And(a, b) == No <==> a == No || b == No
    ensures Or(a, b) == Yes <==> a == Yes || b == Yes
    ensures Or(a, b) == No <==> a == No && b == No
  {
  }

  function IsNull<T>(x: Option<T>): Truth {
    Truthy(x.None?)
  }

  function Differs(x: Option<Id>, y: Id): Truth {
    if x.None? then Unknown else Truthy(x.value != y)
  }

  function After(x: Time, y: Option<Time>): Truth {
    if y.None? then Unknown else Truthy(x > y.value)
  }

  // ---- One workspace ----

  /** `countUnread`'s conditions; the last is left out of the query without a watermark. */
  function Unread(workspaceId: Id, userId: Id, lastReadAt: Option<Time>): Message -> bool {
    (m: Message) =>
      var somebodyElse := Or(IsNull(m.senderId), Differs(m.senderId, userId));
      var base := And(And(Truthy(m.workspaceId == workspaceId), IsNull(m.deletedAt)), somebodyElse);
      (if lastReadAt.Some? then And(base, After(m.createdAt, lastReadAt)) else base) == Yes
  }

  function CountUnread(messages: seq<Message>, workspaceId: Id, userId: Id, lastReadAt: Option<Time>): nat {
    |Filter(messages, Unread(workspaceId, userId, lastReadAt))|
  }

  function Reads(userId: Id, workspaceId: Id): MessageRead -> bool {
    (r: MessageRead) => r.userId == userId && r.workspaceId == workspaceId
  }

  /** `findReadState`, then `state?.lastReadAt ?? null`. */
  function Watermark(readStates: seq<MessageRead>, userId: Id, workspaceId: Id): Option<Time> {
    var found := Filter(readStates, Reads(userId, workspaceId));
    if found == [] then None else found[0].lastReadAt
  }

  // ---- What is unread, in terms of the stored columns ----

  /** A live message of the workspace that somebody else sent, departed or not, after `lastReadAt` if there is one. */
  ghost predicate IsUnread(m: Message, workspaceId: Id, userId: Id, lastReadAt: Option<Time>) {
    && m.workspaceId == workspaceId && m.deletedAt.None? && m.senderId != Some(userId)
    && (lastReadAt.Some? ==> lastReadAt.value < m.createdAt)
  }

  /** The places of the unread messages. */
  ghost function UnreadPlaces(messages: seq<Message>, workspaceId: Id, userId: Id, lastReadAt: Option<Time>): set<nat> {
    set i: nat | i < |messages| && IsUnread(messages[i], workspaceId, userId, lastReadAt)
  }

  lemma UnreadIsUnread(workspaceId: Id, userId: Id, lastReadAt: Option<Time>, m: Message)
    ensures Unread(workspaceId, userId, lastReadAt)(m) <==> IsUnread(m, workspaceId, userId, lastReadAt)
  {
  }

  /** `countUnread` counts each unread message once. */
  lemma {:induction false} CountIsUnread(messages: seq<Message>, workspaceId: Id, userId: Id, lastReadAt: Option<Time>)
    ensures CountUnread(messages, workspaceId, userId, lastReadAt)
         == |UnreadPlaces(messages, workspaceId, userId, lastReadAt)|
    decreases |messages|
  {
    if messages != [] {
      hide Filter, IsUnread, Unread;
      var n := |messages| - 1;
      CountIsUnread(messages[..n], workspaceId, userId, lastReadAt);
      UnreadIsUnread(workspaceId, userId, lastReadAt, messages[n]);
      CountOneMore(messages, Unread(workspaceId, userId, lastReadAt));
      var before := UnreadPlaces(messages[..n], workspaceId, userId, lastReadAt);
      var places := UnreadPlaces(messages, workspaceId, userId, lastReadAt);
      forall i: nat
        ensures i in places <==> i in before || (IsUnread(messages[n], workspaceId, userId, lastReadAt) && i == n)
      {
        assert i < n ==> messages[..n][i] == messages[i];
      }
      OneMorePlace(before, places, n, IsUnread(messages[n], workspaceId, userId, lastReadAt));
    }
  }

  lemma CountOneMore(messages: seq<Message>, p: Message -> bool)
    requires messages != []
    ensures
      var n := |messages| - 1;
      |Filter(messages, p)| == |Filter(messages[..n], p)| + (if p(messages[n]) then 1 else 0)
  {
    var n := |messages| - 1;
    assert messages == messages[..n] + [messages[n]];
    FilterAppend(messages[..n], [messages[n]], p);
    assert [messages[n]][1..] == [];
  }

  // ---- All workspaces in one query ----

  datatype Joined = Joined(workspace: Workspace, message: Message)

  /** The columns grouped by. */
  datatype Group = Group(workspaceId: Id, name: string, icon: string)

  function FlatMap<A, B>(s: seq<A>, f: A -> seq<B>): seq<B> {
    if s == [] then [] else f(s[0]) + FlatMap(s[1..], f)
  }

  function Mine(userId: Id): Membership -> bool {
    (ms: Membership) => ms.userId == userId
  }

  function LiveIn(ms: Membership): Workspace -> bool {
    (w: Workspace) => And(Truthy(w.id == ms.workspaceId), IsNull(w.deletedAt)) == Yes
  }

  /** `LEFT JOIN`: the matches, or one row of nulls. */
  function ReadRows(readStates: seq<MessageRead>, userId: Id, w: Workspace): seq<Option<MessageRead>> {
    var found := Filter(readStates, Reads(userId, w.id));
    if found == [] then [None] else seq(|found|, i requires 0 <= i < |found| => Some(found[i]))
  }

  /** `r."lastReadAt"`, null in a row of nulls. */
  function LastRead(r: Option<MessageRead>): Option<Time> {
    if r.None? then None else r.value.lastReadAt
  }

  function NewsIn(w: Workspace, userId: Id, r: Option<MessageRead>): Message -> bool {
    (m: Message) =>
      And(And(And(Truthy(m.workspaceId == w.id), IsNull(m.deletedAt)),
              Or(IsNull(m.senderId), Differs(m.senderId, userId))),
          Or(IsNull(LastRead(r)), After(m.createdAt, LastRead(r)))) == Yes
  }

  function WithMessages(db: Db, userId: Id, w: Workspace): Option<MessageRead> -> seq<Joined> {
    (r: Option<MessageRead>) =>
      var news := Filter(db.messages, NewsIn(w, userId, r));
      seq(|news|, i requires 0 <= i < |news| => Joined(w, news[i]))
  }

  function WithReads(db: Db, userId: Id): Workspace -> seq<Joined> {
    (w: Workspace) => FlatMap(ReadRows(db.readStates, userId, w), WithMessages(db, userId, w))
  }

  function WithWorkspaces(db: Db, userId: Id): Membership -> seq<Joined> {
    (ms: Membership) => FlatMap(Filter(db.workspaces, LiveIn(ms)), WithReads(db, userId))
  }

  function JoinedRows(db: Db, userId: Id): seq<Joined> {
    FlatMap(Filter(db.memberships, Mine(userId)), WithWorkspaces(db, userId))
  }

  function GroupOf(w: Workspace): Group {
    Group(w.id, w.name, w.icon)
  }

  function InGroup(g: Group): Joined -> bool {
    (row: Joined) => GroupOf(row.workspace) == g
  }

  /** `GROUP BY` with `COUNT`: one row a group. */
  function FindUnreadSummary(db: Db, userId: Id): map<Group, nat> {
    var rows := JoinedRows(db, userId);
    map row | row in rows :: GroupOf(row.workspace) := |Filter(rows, InGroup(GroupOf(row.workspace)))|
  }

  // ---- The two agree ----

  /** The keys the schema declares: a workspace's id, and one membership and one read row a user and workspace. */
  ghost predicate KeysOk(db: Db) {
    && (forall i, j :: 0 <= i < j < |db.workspaces| ==> db.workspaces[i].id != db.workspaces[j].id)
    && (forall i, j :: 0 <= i < j < |db.readStates| ==>
          db.readStates[i].userId != db.readStates[j].userId || db.readStates[i].workspaceId != db.readStates[j].workspaceId)
    && (forall i, j :: 0 <= i < j < |db.memberships| ==> db.memberships[i] != db.memberships[j])
  }

  lemma {:induction false} FlatMapNone<A(!new), B(!new)>(s: seq<A>, f: A -> seq<B>, p: B -> bool)
    requires forall x :: x in s ==> Filter(f(x), p) == []
    ensures Filter(FlatMap(s, f), p) == []
  {
    if s != [] {
      FlatMapNone(s[1..], f, p);
      FilterAppend(f(s[0]), FlatMap(s[1..], f), p);
    }
  }

  /** Only one element contributes. */
  lemma {:induction false} FlatMapOne<A(!new), B(!new)>(s: seq<A>, f: A -> seq<B>, p: B -> bool, x: A)
    requires Distinct(s) && x in s
    requires forall y :: y in s && y != x ==> Filter(f(y), p) == []
    ensures Filter(FlatMap(s, f), p) == Filter(f(x), p)
  {
    FilterAppend(f(s[0]), FlatMap(s[1..], f), p);
    if s[0] == x {
      FlatMapNone(s[1..], f, p);
    } else {
      FlatMapOne(s[1..], f, p, x);
    }
  }

  lemma FlatMapSingle<A, B>(x: A, f: A -> seq<B>)
    ensures FlatMap([x], f) == f(x)
  {
    assert FlatMap([x][1..], f) == [];
  }

  lemma {:induction false} FlatMapMembers<A(!new), B(!new)>(s: seq<A>, f: A -> seq<B>, y: B)
    ensures y in FlatMap(s, f) <==> exists x :: x in s && y in f(x)
  {
    if s != [] {
      FlatMapMembers(s[1..], f, y);
      if x :| x in s && y in f(x) {
        assert x == s[0] || x in s[1..];
      }
    }
  }

  lemma WorkspacesDistinct(db: Db)
    requires KeysOk(db)
    ensures Distinct(db.workspaces) && Distinct(db.memberships) && Distinct(db.readStates)
  {
  }

  lemma SameWorkspace(db: Db, v: Workspace, w: Workspace)
    requires KeysOk(db) && v in db.workspaces && w in db.workspaces && v.id == w.id
    ensures v == w
  {
  }

  /** The left join adds no rows of its own: there is one watermark, or one row of nulls. */
  lemma OneReadRow(db: Db, userId: Id, w: Workspace)
    requires KeysOk(db)
    ensures |ReadRows(db.readStates, userId, w)| == 1
    ensures LastRead(ReadRows(db.readStates, userId, w)[0]) == Watermark(db.readStates, userId, w.id)
  {
    var found := Filter(db.readStates, Reads(userId, w.id));
    FilterMembers(db.readStates, Reads(userId, w.id));
    WorkspacesDistinct(db);
    FilterDistinct(db.readStates, Reads(userId, w.id));
    if |found| > 1 {
      assert found[0] in found && found[1] in found;
      SameRead(db, found[0], found[1]);
      assert false;
    }
  }

  lemma SameRead(db: Db, r: MessageRead, s: MessageRead)
    requires KeysOk(db) && r in db.readStates && s in db.readStates
    requires r.userId == s.userId && r.workspaceId == s.workspaceId
    ensures r == s
  {
  }

  /** The join condition with the watermark is `countUnread`'s, unknowns included. */
  lemma SameCondition(w: Workspace, userId: Id, r: Option<MessageRead>, m: Message)
    ensures NewsIn(w, userId, r)(m) == Unread(w.id, userId, LastRead(r))(m)
  {
  }

  lemma {:induction false} FilterSame<T(!new)>(s: seq<T>, p: T -> bool, q: T -> bool)
    requires forall x :: x in s ==> p(x) == q(x)
    ensures Filter(s, p) == Filter(s, q)
  {
    if s != [] {
      FilterSame(s[1..], p, q);
    }
  }

  /** The rows a workspace contributes. */
  lemma RowsOf(db: Db, userId: Id, w: Workspace)
    requires KeysOk(db)
    ensures |WithReads(db, userId)(w)| == CountUnread(db.messages, w.id, userId, Watermark(db.readStates, userId, w.id))
    ensures forall row :: row in WithReads(db, userId)(w) ==> row.workspace == w
  {
    OneReadRow(db, userId, w);
    var r := ReadRows(db.readStates, userId, w)[0];
    assert ReadRows(db.readStates, userId, w) == [r];
    FlatMapSingle(r, WithMessages(db, userId, w));
    forall m | m in db.messages
      ensures NewsIn(w, userId, r)(m) == Unread(w.id, userId, LastRead(r))(m)
    {
      SameCondition(w, userId, r, m);
    }
    FilterSame(db.messages, NewsIn(w, userId, r), Unread(w.id, userId, LastRead(r)));
  }

  /** A membership contributes its own workspace's rows, if the workspace is live. */
  lemma RowsOfMembership(db: Db, userId: Id, ms: Membership, w: Workspace)
    requires KeysOk(db) && w in db.workspaces
    ensures
      Filter(WithWorkspaces(db, userId)(ms), InGroup(GroupOf(w))) ==
      if ms.workspaceId == w.id && w.deletedAt.None? then WithReads(db, userId)(w) else []
  {
    hide KeysOk, FlatMap, ReadRows;
    var live := Filter(db.workspaces, LiveIn(ms));
    FilterMembers(db.workspaces, LiveIn(ms));
    WorkspacesDistinct(db);
    FilterDistinct(db.workspaces, LiveIn(ms));
    forall v | v in live && v != w
      ensures Filter(WithReads(db, userId)(v), InGroup(GroupOf(w))) == []
    {
      OtherGroup(db, userId, v, w);
    }
    if w in live {
      FlatMapOne(live, WithReads(db, userId), InGroup(GroupOf(w)), w);
      RowsOf(db, userId, w);
      FilterAll(WithReads(db, userId)(w), InGroup(GroupOf(w)));
    } else {
      FlatMapNone(live, WithReads(db, userId), InGroup(GroupOf(w)));
    }
  }

  lemma OtherGroup(db: Db, userId: Id, v: Workspace, w: Workspace)
    requires KeysOk(db) && v in db.workspaces && w in db.workspaces && v != w
    ensures Filter(WithReads(db, userId)(v), InGroup(GroupOf(w))) == []
  {
    RowsOf(db, userId, v);
    if v.id == w.id {
      SameWorkspace(db, v, w);
    }
    FilterNone(WithReads(db, userId)(v), InGroup(GroupOf(w)));
  }

  ghost predicate Belongs(db: Db, userId: Id, w: Workspace) {
    Membership(userId, w.id) in db.memberships && w.deletedAt.None?
  }

  /** A workspace's group holds its unread messages if the user belongs to it, and nothing otherwise. */
  lemma GroupSize(db: Db, userId: Id, w: Workspace)
    requires KeysOk(db) && w in db.workspaces
    ensures
      |Filter(JoinedRows(db, userId), InGroup(GroupOf(w)))| ==
      if Belongs(db, userId, w)
      then CountUnread(db.messages, w.id, userId, Watermark(db.readStates, userId, w.id))
      else 0
  {
    hide KeysOk, FlatMap, ReadRows, WithWorkspaces, WithReads;
    var mine := Filter(db.memberships, Mine(userId));
    FilterMembers(db.memberships, Mine(userId));
    WorkspacesDistinct(db);
    FilterDistinct(db.memberships, Mine(userId));
    forall ms | ms in mine
      ensures Filter(WithWorkspaces(db, userId)(ms), InGroup(GroupOf(w))) ==
              if ms.workspaceId == w.id && w.deletedAt.None? then WithReads(db, userId)(w) else []
    {
      RowsOfMembership(db, userId, ms, w);
    }
    if Belongs(db, userId, w) {
      FlatMapOne(mine, WithWorkspaces(db, userId), InGroup(GroupOf(w)), Membership(userId, w.id));
      RowsOf(db, userId, w);
    } else {
      FlatMapNone(mine, WithWorkspaces(db, userId), InGroup(GroupOf(w)));
    }
  }

  /** Every joined row belongs to a stored workspace. */
  lemma RowsAreStored(db: Db, userId: Id, row: Joined)
    requires KeysOk(db) && row in JoinedRows(db, userId)
    ensures row.workspace in db.workspaces
  {
    var mine := Filter(db.memberships, Mine(userId));
    FlatMapMembers(mine, WithWorkspaces(db, userId), row);
    var ms :| ms in mine && row in WithWorkspaces(db, userId)(ms);
    var live := Filter(db.workspaces, LiveIn(ms));
    FlatMapMembers(live, WithReads(db, userId), row);
    var w :| w in live && row in WithReads(db, userId)(w);
    FilterMembers(db.workspaces, LiveIn(ms));
    RowsOf(db, userId, w);
  }

  lemma GroupPresent(rows: seq<Joined>, g: Group)
    ensures (exists row :: row in rows && GroupOf(row.workspace) == g) <==> |Filter(rows, InGroup(g))| > 0
  {
    FilterMembers(rows, InGroup(g));
    if |Filter(rows, InGroup(g))| > 0 {
      assert Filter(rows, InGroup(g))[0] in rows;
    }
  }

  /** The watermark is what the read row of the user and workspace holds; without one there is none. */
  lemma WatermarkIsStored(db: Db, userId: Id, workspaceId: Id)
    requires KeysOk(db)
    ensures forall r :: r in db.readStates && r.userId == userId && r.workspaceId == workspaceId ==>
              Watermark(db.readStates, userId, workspaceId) == r.lastReadAt
    ensures (forall r :: r in db.readStates ==> r.userId != userId || r.workspaceId != workspaceId) ==>
              Watermark(db.readStates, userId, workspaceId).None?
  {
    var found := Filter(db.readStates, Reads(userId, workspaceId));
    FilterMembers(db.readStates, Reads(userId, workspaceId));
    if found != [] {
      assert found[0] in found;
    }
    forall r | r in db.readStates && r.userId == userId && r.workspaceId == workspaceId
      ensures Watermark(db.readStates, userId, workspaceId) == r.lastReadAt
    {
      assert r in found;
      SameRead(db, found[0], r);
    }
  }

  /** A live message of the workspace, sent by somebody else, and later than the user's read row says, if it says. */
  ghost predicate IsNews(db: Db, userId: Id, w: Workspace, m: Message) {
    && m.workspaceId == w.id && m.deletedAt.None? && m.senderId != Some(userId)
    && forall r :: r in db.readStates && r.userId == userId && r.workspaceId == w.id && r.lastReadAt.Some? ==>
         r.lastReadAt.value < m.createdAt
  }

  ghost function NewsPlaces(db: Db, userId: Id, w: Workspace): set<nat> {
    set i: nat | i < |db.messages| && IsNews(db, userId, w, db.messages[i])
  }

  lemma NewsIsUnread(db: Db, userId: Id, w: Workspace)
    requires KeysOk(db)
    ensures NewsPlaces(db, userId, w) == UnreadPlaces(db.messages, w.id, userId, Watermark(db.readStates, userId, w.id))
  {
    hide KeysOk, Watermark;
    WatermarkIsStored(db, userId, w.id);
  }

  /**
   * The one query returns exactly the live workspaces the user belongs to with
   * something unread, each once, with their number of unread messages, which is
   * `countUnread`'s own.
   */
  lemma SummaryIsCountPerWorkspace(db: Db, userId: Id)
    requires KeysOk(db)
    ensures
      var summary := FindUnreadSummary(db, userId);
      && (forall w :: w in db.workspaces ==>
            var row, news := Group(w.id, w.name, w.icon), |NewsPlaces(db, userId, w)|;
            && (row in summary <==>
                  Membership(userId, w.id) in db.memberships && w.deletedAt.None? && news > 0)
            && (row in summary ==> summary[row] == news)
            && news == CountUnread(db.messages, w.id, userId, Watermark(db.readStates, userId, w.id)))
      && (forall row :: row in summary ==> exists w :: w in db.workspaces && row == Group(w.id, w.name, w.icon))
  {
    hide KeysOk, JoinedRows, CountUnread, Watermark, NewsPlaces, UnreadPlaces, Filter;
    var rows := JoinedRows(db, userId);
    forall w | w in db.workspaces
      ensures |Filter(rows, InGroup(GroupOf(w)))| == if Belongs(db, userId, w) then |NewsPlaces(db, userId, w)| else 0
      ensures |NewsPlaces(db, userId, w)|
           == CountUnread(db.messages, w.id, userId, Watermark(db.readStates, userId, w.id))
      ensures (exists row :: row in rows && GroupOf(row.workspace) == GroupOf(w))
              <==> |Filter(rows, InGroup(GroupOf(w)))| > 0
    {
      GroupSize(db, userId, w);
      GroupPresent(rows, GroupOf(w));
      NewsIsUnread(db, userId, w);
      CountIsUnread(db.messages, w.id, userId, Watermark(db.readStates, userId, w.id));
    }
    forall row | row in rows
      ensures row.workspace in db.workspaces
    {
      RowsAreStored(db, userId, row);
    }
  }

  // ---- Why the condition names the null sender ----

  /** The shorter condition, without the null case. */
  function UnreadByOthers(workspaceId: Id, userId: Id, lastReadAt: Option<Time>): Message -> bool {
    (m: Message) =>
      var base := And(And(Truthy(m.workspaceId == workspaceId), IsNull(m.deletedAt)), Differs(m.senderId, userId));
      (if lastReadAt.Some? then And(base, After(m.createdAt, lastReadAt)) else base) == Yes
  }

  function Departed(workspaceId: Id, userId: Id, lastReadAt: Option<Time>): Message -> bool {
    (m: Message) => m.senderId.None? && Unread(workspaceId, userId, lastReadAt)(m)
  }

  /** What the shorter condition holds of, and what it misses, in terms of the stored columns. */
  lemma ShortFormInTerms(workspaceId: Id, userId: Id, lastReadAt: Option<Time>, m: Message)
    ensures UnreadByOthers(workspaceId, userId, lastReadAt)(m)
            <==> IsUnread(m, workspaceId, userId, lastReadAt) && m.senderId.Some?
    ensures Departed(workspaceId, userId, lastReadAt)(m)
            <==> IsUnread(m, workspaceId, userId, lastReadAt) && m.senderId.None?
  {
    UnreadIsUnread(workspaceId, userId, lastReadAt, m);
  }

  /** It would lose exactly the unread messages of departed senders. */
  lemma {:induction false} ShortFormLosesDeparted(messages: seq<Message>, workspaceId: Id, userId: Id,
                                                  lastReadAt: Option<Time>)
    ensures
      CountUnread(messages, workspaceId, userId, lastReadAt) ==
      |Filter(messages, UnreadByOthers(workspaceId, userId, lastReadAt))|
      + |Filter(messages, Departed(workspaceId, userId, lastReadAt))|
  {
    if messages != [] {
      ShortFormLosesDeparted(messages[1..], workspaceId, userId, lastReadAt);
    }
  }
}
