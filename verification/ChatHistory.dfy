/** History pages: the keyset query, the page with its cursor, and following the cursor. */
module ChatHistory {
  import Base64Url
  import opened ChatCursor
  import opened IsoTime
  import opened Lists
  import opened Prelude
  import opened Sorting

  type IdOrder = (Bytes, Bytes) -> bool

  datatype Row = Row(workspaceId: nat, position: Position)

  datatype Page = Page(messages: seq<Row>, nextCursor: Option<string>)

  datatype ListError = NotFound | InvalidCursor

  /** The database's order on ids, whatever its collation. */
  ghost predicate IsOrder(le: IdOrder) {
    TotalPreorder(le) && forall a, b :: le(a, b) && le(b, a) ==> a == b
  }

  function AtMost(a: Position, b: Position, le: IdOrder): bool {
    a.at < b.at || (a.at == b.at && le(a.id, b.id))
  }

  /** The page query's condition: strictly older than the cursor, ties broken by id. */
  function Older(a: Position, b: Position, le: IdOrder): bool {
    a.at < b.at || (a.at == b.at && le(a.id, b.id) && a.id != b.id)
  }

  function NewestFirst(le: IdOrder): (Row, Row) -> bool {
    (a: Row, b: Row) => AtMost(b.position, a.position, le)
  }

  /** The rows a page query may return; no cursor is the head of the channel. */
  function Wanted(workspaceId: nat, cursor: Option<Position>, le: IdOrder): Row -> bool {
    (row: Row) => row.workspaceId == workspaceId && (cursor.Some? ==> Older(row.position, cursor.value, le))
  }

  /** Everything from the cursor on, newest first. */
  function Rest(table: seq<Row>, workspaceId: nat, cursor: Option<Position>, le: IdOrder): seq<Row> {
    Sort(Filter(table, Wanted(workspaceId, cursor, le)), NewestFirst(le))
  }

  function FindMessages(table: seq<Row>, workspaceId: nat, limit: nat, cursor: Option<Position>, le: IdOrder): seq<Row> {
    Take(Rest(table, workspaceId, cursor, le), limit)
  }

  function ListMessages(table: seq<Row>, member: bool, workspaceId: nat, limit: nat, cursor: Option<string>, le: IdOrder)
    : Result<Page, ListError>
    requires limit > 0
  {
    if !member then Err(NotFound)
    else
      var given := cursor.Some? && cursor.value != "";
      var decoded := if given then DecodeCursor(cursor.value) else None;
      if given && decoded.None? then Err(InvalidCursor)
      else
        var rows := FindMessages(table, workspaceId, limit, decoded, le);
        Ok(Page(rows, if |rows| == limit then Some(EncodeCursor(rows[|rows| - 1].position)) else None))
  }

  // ---- The order, in terms of times and ids ----

  /** Later, or at the same time with the greater id. */
  ghost predicate NewerThan(a: Position, b: Position, le: IdOrder) {
    a.at > b.at || (a.at == b.at && a.id != b.id && le(b.id, a.id))
  }

  // ---- Following the cursor ----

  /** Ids are unique and usable in a cursor. */
  ghost predicate TableOk(table: seq<Row>) {
    && (forall i, j :: 0 <= i < j < |table| ==> table[i].position.id != table[j].position.id)
    && (forall row :: row in table ==> row.position.id != [] && BAR !in row.position.id)
  }

  /** Rows added meanwhile are newer than the cursor, or in another channel. */
  ghost predicate OnlyNewerAdded(table: seq<Row>, table': seq<Row>, workspaceId: nat, cursor: Position, le: IdOrder) {
    && |table| <= |table'| && table'[..|table|] == table
    && (forall row :: row in table'[|table|..] && row.workspaceId == workspaceId ==> !NewerThan(cursor, row.position, le))
  }

  /** A client follows `nextCursor`; each request meets its own table. */
  ghost predicate IsWalk(workspaceId: nat, limit: nat, le: IdOrder, cursor: Option<Position>,
                         tables: seq<seq<Row>>, pages: seq<Page>)
    requires limit > 0 && |tables| == |pages| > 0
    decreases |pages|
  {
    && ListMessages(tables[0], true, workspaceId, limit, AsText(cursor), le) == Ok(pages[0])
    && (|pages| > 1 ==>
          && pages[0].nextCursor.Some?
          && DecodeCursor(pages[0].nextCursor.value).Some?
          && var next := DecodeCursor(pages[0].nextCursor.value);
          && OnlyNewerAdded(tables[0], tables[1], workspaceId, next.value, le)
          && IsWalk(workspaceId, limit, le, next, tables[1..], pages[1..]))
  }

  function AsText(cursor: Option<Position>): Option<string> {
    if cursor.None? then None else Some(EncodeCursor(cursor.value))
  }

  ghost predicate Usable(cursor: Option<Position>) {
    cursor.Some? ==> cursor.value.id != [] && BAR !in cursor.value.id
  }

  /** The rows on `n` full pages. */
  function Rows(n: nat, limit: nat): nat {
    n * limit
  }

  function Joined(pages: seq<Page>): seq<Row> {
    if pages == [] then [] else pages[0].messages + Joined(pages[1..])
  }

  lemma NewestFirstIsOrder(le: IdOrder)
    requires IsOrder(le)
    ensures TotalPreorder(NewestFirst(le))
  {
    forall a, b
      ensures NewestFirst(le)(a, b) || NewestFirst(le)(b, a)
    {
      assert le(a.position.id, b.position.id) || le(b.position.id, a.position.id);
    }
    forall a, b, c | NewestFirst(le)(a, b) && NewestFirst(le)(b, c)
      ensures NewestFirst(le)(a, c)
    {
      AtMostIsTransitive(c.position, b.position, a.position, le);
    }
  }

  lemma AtMostIsTransitive(a: Position, b: Position, c: Position, le: IdOrder)
    requires IsOrder(le) && AtMost(a, b, le) && AtMost(b, c, le)
    ensures AtMost(a, c, le)
  {
  }

  lemma SameIdSameRow(table: seq<Row>, a: Row, b: Row)
    requires TableOk(table) && a in table && b in table && a.position.id == b.position.id
    ensures a == b
  {
  }

  lemma RowsDistinct(table: seq<Row>)
    requires TableOk(table)
    ensures Distinct(table)
  {
  }

  /** What is left of the channel: ordered, without ties or repetitions, exactly the wanted rows. */
  lemma RestIsOrdered(table: seq<Row>, workspaceId: nat, cursor: Option<Position>, le: IdOrder)
    requires IsOrder(le) && TableOk(table)
    ensures
      var rest := Rest(table, workspaceId, cursor, le);
      && Sorted(rest, NewestFirst(le)) && NoTies(rest, NewestFirst(le)) && Distinct(rest)
      && (forall i, j :: 0 <= i < j < |rest| ==> NewerThan(rest[i].position, rest[j].position, le))
      && (forall row :: row in rest <==>
            row in table && row.workspaceId == workspaceId
            && (cursor.Some? ==> NewerThan(cursor.value, row.position, le)))
      && multiset(rest) == multiset(Filter(table, Wanted(workspaceId, cursor, le)))
  {
    var wanted := Filter(table, Wanted(workspaceId, cursor, le));
    var rest := Rest(table, workspaceId, cursor, le);
    NewestFirstIsOrder(le);
    SortSorts(wanted, NewestFirst(le));
    RowsDistinct(table);
    FilterDistinct(table, Wanted(workspaceId, cursor, le));
    PermutationDistinct(wanted, rest);
    FilterMembers(table, Wanted(workspaceId, cursor, le));
    forall a, b | a in rest && b in rest && NewestFirst(le)(a, b) && NewestFirst(le)(b, a)
      ensures a == b
    {
      SameIdSameRow(table, a, b);
    }
    forall i, j | 0 <= i < j < |rest|
      ensures NewerThan(rest[i].position, rest[j].position, le)
    {
      assert NewestFirst(le)(rest[i], rest[j]);
      assert rest[i] in rest && rest[j] in rest;
      if rest[i].position.id == rest[j].position.id {
        SameIdSameRow(table, rest[i], rest[j]);
      }
    }
  }

  /** The rows older than the `k`th are the ones behind it. */
  lemma OlderAreBehind(rest: seq<Row>, k: nat, workspaceId: nat, le: IdOrder)
    requires IsOrder(le) && k < |rest|
    requires Sorted(rest, NewestFirst(le)) && NoTies(rest, NewestFirst(le)) && Distinct(rest)
    requires forall row :: row in rest ==> row.workspaceId == workspaceId
    ensures Filter(rest, Wanted(workspaceId, Some(rest[k].position), le)) == rest[k + 1..]
  {
    hide Filter, Wanted, NewestFirst, IsOrder;
    var older := Wanted(workspaceId, Some(rest[k].position), le);
    assert rest == rest[..k + 1] + rest[k + 1..];
    FilterAppend(rest[..k + 1], rest[k + 1..], older);
    forall row | row in rest[..k + 1]
      ensures !older(row)
    {
      var i :| 0 <= i <= k && rest[i] == row;
      NotOlder(rest, i, k, workspaceId, le);
    }
    FilterNone(rest[..k + 1], older);
    forall row | row in rest[k + 1..]
      ensures older(row)
    {
      var j :| k < j < |rest| && rest[j] == row;
      IsOlder(rest, k, j, workspaceId, le);
    }
    FilterAll(rest[k + 1..], older);
  }

  lemma NotOlder(rest: seq<Row>, i: nat, k: nat, workspaceId: nat, le: IdOrder)
    requires IsOrder(le) && i <= k < |rest| && Sorted(rest, NewestFirst(le))
    ensures !Wanted(workspaceId, Some(rest[k].position), le)(rest[i])
  {
    assert i == k || NewestFirst(le)(rest[i], rest[k]);
  }

  lemma IsOlder(rest: seq<Row>, k: nat, j: nat, workspaceId: nat, le: IdOrder)
    requires IsOrder(le) && k < j < |rest|
    requires Sorted(rest, NewestFirst(le)) && NoTies(rest, NewestFirst(le)) && Distinct(rest)
    requires rest[j].workspaceId == workspaceId
    ensures Wanted(workspaceId, Some(rest[k].position), le)(rest[j])
  {
    assert NewestFirst(le)(rest[k], rest[j]);
    assert rest[k] in rest && rest[j] in rest;
    assert !NewestFirst(le)(rest[j], rest[k]);
  }

  lemma OlderIsTransitive(a: Position, b: Position, c: Position, le: IdOrder)
    requires IsOrder(le) && Older(a, b, le) && Older(b, c, le)
    ensures Older(a, c, le)
  {
  }

  /** After a full page the rest of the channel is what was behind it, whatever newer rows came in. */
  lemma PageLeavesTheRest(table: seq<Row>, table': seq<Row>, workspaceId: nat, limit: nat,
                          cursor: Option<Position>, le: IdOrder)
    requires IsOrder(le) && TableOk(table) && TableOk(table') && 0 < limit
    requires |Rest(table, workspaceId, cursor, le)| >= limit
    requires
      var next := Rest(table, workspaceId, cursor, le)[limit - 1].position;
      OnlyNewerAdded(table, table', workspaceId, next, le)
    ensures
      var rest := Rest(table, workspaceId, cursor, le);
      Rest(table', workspaceId, Some(rest[limit - 1].position), le) == rest[limit..]
  {
    hide Sort;
    var rest := Rest(table, workspaceId, cursor, le);
    var wanted, older := Wanted(workspaceId, cursor, le), Wanted(workspaceId, Some(rest[limit - 1].position), le);
    RestIsOrdered(table, workspaceId, cursor, le);
    OlderAreBehind(rest, limit - 1, workspaceId, le);
    OlderIsWanted(rest[limit - 1], workspaceId, cursor, le);
    FilterStronger(table, older, wanted);
    FilterPermutes(rest, Filter(table, wanted), older);
    assert table' == table + table'[|table|..];
    FilterAppend(table, table'[|table|..], older);
    FilterNone(table'[|table|..], older);
    NewestFirstIsOrder(le);
    SuffixStaysOrdered(rest, limit, NewestFirst(le));
    SortIs(Filter(table', older), rest[limit..], NewestFirst(le));
  }

  lemma OlderIsWanted(last: Row, workspaceId: nat, cursor: Option<Position>, le: IdOrder)
    requires IsOrder(le) && Wanted(workspaceId, cursor, le)(last)
    ensures forall row ::
      Wanted(workspaceId, Some(last.position), le)(row) ==> Wanted(workspaceId, cursor, le)(row)
  {
    forall row | Wanted(workspaceId, Some(last.position), le)(row)
      ensures Wanted(workspaceId, cursor, le)(row)
    {
      if cursor.Some? {
        OlderIsTransitive(row.position, last.position, cursor.value, le);
      }
    }
  }

  lemma SuffixStaysOrdered<T(!new)>(s: seq<T>, k: nat, le: (T, T) -> bool)
    requires k <= |s| && Sorted(s, le) && NoTies(s, le)
    ensures Sorted(s[k..], le) && NoTies(s[k..], le)
  {
  }

  /** The page a cursor leads to: the next `limit` rows, and a cursor exactly when the page is full. */
  lemma PageOf(table: seq<Row>, workspaceId: nat, limit: nat, cursor: Option<Position>, le: IdOrder)
    requires limit > 0 && Usable(cursor)
    ensures
      var rest := Rest(table, workspaceId, cursor, le);
      ListMessages(table, true, workspaceId, limit, AsText(cursor), le) ==
      Ok(Page(Take(rest, limit),
              if |rest| >= limit then Some(EncodeCursor(rest[limit - 1].position)) else None))
  {
    hide EncodeCursor, DecodeCursor, Rest;
    if cursor.Some? {
      CursorRoundTrip(cursor.value);
      EmptyIsNoCursor();
    }
  }

  /**
   * The whole answer: nothing for somebody outside the channel, a refusal for a cursor that
   * cannot be read, and otherwise the first `limit` rows older than the cursor, or the
   * newest ones without it, with a cursor for the last of them exactly if the page is full.
   */
  lemma ListInTerms(table: seq<Row>, member: bool, workspaceId: nat, limit: nat, cursor: Option<string>, le: IdOrder)
    requires limit > 0
    ensures
      var page := ListMessages(table, member, workspaceId, limit, cursor, le);
      var at := if cursor.Some? && cursor.value != "" then DecodeCursor(cursor.value) else None;
      if !member then page == Err(NotFound)
      else if cursor.Some? && cursor.value != "" && at.None? then page == Err(InvalidCursor)
      else
        && page.Ok?
        && var rest, rows := Rest(table, workspaceId, at, le), page.value.messages;
        && |rows| == (if |rest| < limit then |rest| else limit) && rows == rest[..|rows|]
        && page.value.nextCursor ==
           (if |rows| == limit then Some(EncodeCursor(rows[limit - 1].position)) else None)
  {
    hide EncodeCursor, DecodeCursor, Rest;
  }

  /** A cursor is refused exactly when the id it was made from is empty or holds a bar. */
  lemma UnusableCursorIsRefused(table: seq<Row>, workspaceId: nat, limit: nat, at: Position, le: IdOrder)
    requires limit > 0
    ensures ListMessages(table, true, workspaceId, limit, Some(EncodeCursor(at)), le) == Err(InvalidCursor)
            <==> !Usable(Some(at))
  {
    hide EncodeCursor, DecodeCursor, Rest;
    CursorRoundTrip(at);
    CursorIsNotEmpty(at);
  }

  lemma CursorIsNotEmpty(at: Position)
    ensures EncodeCursor(at) != ""
  {
    hide Base64Url.Encode, ToIsoString;
    EncodedIsNotEmpty(ToBytes(ToIsoString(at.at)) + [BAR] + at.id);
  }

  lemma EmptyIsNoCursor()
    ensures DecodeCursor("").None?
  {
  }

  lemma RestIsUsable(table: seq<Row>, workspaceId: nat, cursor: Option<Position>, le: IdOrder, k: nat)
    requires IsOrder(le) && TableOk(table) && k < |Rest(table, workspaceId, cursor, le)|
    ensures Usable(Some(Rest(table, workspaceId, cursor, le)[k].position))
  {
    hide Rest;
    RestIsOrdered(table, workspaceId, cursor, le);
    assert Rest(table, workspaceId, cursor, le)[k] in table;
  }

  /**
   * Following the cursor from anywhere with any page size yields exactly what
   * was there, in order, each message once, and ends when a page comes short,
   * even while newer messages keep arriving.
   */
  lemma {:induction false} WalkReads(workspaceId: nat, limit: nat, le: IdOrder, cursor: Option<Position>,
                                     tables: seq<seq<Row>>, pages: seq<Page>)
    requires IsOrder(le) && limit > 0 && Usable(cursor)
    requires forall table :: table in tables ==> TableOk(table)
    requires |tables| == |pages| > 0 && IsWalk(workspaceId, limit, le, cursor, tables, pages)
    ensures
      var rest := Rest(tables[0], workspaceId, cursor, le);
      && Rows(|pages| - 1, limit) <= |rest|
      && Joined(pages) == Take(rest, Rows(|pages|, limit))
      && (pages[|pages| - 1].nextCursor.None? <==> |rest| < Rows(|pages|, limit))
    decreases |pages|
  {
    hide Rest, ListMessages, EncodeCursor, DecodeCursor, TableOk, IsOrder, OnlyNewerAdded, Rows, Joined, Take;
    var rest := Rest(tables[0], workspaceId, cursor, le);
    PageOf(tables[0], workspaceId, limit, cursor, le);
    FirstJoined(pages);
    if |pages| == 1 {
      NoPages(limit);
      OneLess(1, limit);
    } else {
      var last := rest[limit - 1].position;
      RestIsUsable(tables[0], workspaceId, cursor, le, limit - 1);
      CursorRoundTrip(last);
      PageLeavesTheRest(tables[0], tables[1], workspaceId, limit, cursor, le);
      WalkReads(workspaceId, limit, le, Some(last), tables[1..], pages[1..]);
      OneLess(|pages| - 1, limit);
      OneLess(|pages|, limit);
      Continue(rest, limit, Rows(|pages| - 1, limit));
    }
  }

  lemma FirstJoined(pages: seq<Page>)
    requires pages != []
    ensures Joined(pages) == pages[0].messages + Joined(pages[1..])
    ensures |pages| == 1 ==> Joined(pages) == pages[0].messages
  {
    assert |pages| == 1 ==> pages[1..] == [];
  }

  lemma OneLess(n: nat, limit: nat)
    requires n > 0
    ensures Rows(n, limit) == Rows(n - 1, limit) + limit
  {
  }

  lemma NoPages(limit: nat)
    ensures Rows(0, limit) == 0
  {
  }

  lemma Continue<T>(s: seq<T>, k: nat, n: nat)
    requires k <= |s|
    ensures Take(s, k) + Take(s[k..], n) == Take(s, k + n)
  {
  }

  lemma Quotient(n: nat, limit: nat, q: nat)
    requires limit > 0 && Rows(q, limit) <= n < Rows(q + 1, limit)
    ensures n / limit == q
  {
    OneLess(q + 1, limit);
    var d := n / limit;
    assert n == d * limit + n % limit;
    if d < q {
      Apart(d, q, limit);
    } else if q < d {
      Apart(q, d, limit);
    }
  }

  lemma Apart(a: nat, b: nat, limit: nat)
    requires a < b
    ensures a * limit + limit <= b * limit
  {
    assert (a + 1) * limit <= b * limit;
  }

  /**
   * A walk from the head that has run out of cursors has read the whole
   * channel, newest first, each message once, in floor(n / limit) + 1 pages.
   */
  lemma FinishedWalkIsTheChannel(workspaceId: nat, limit: nat, le: IdOrder, tables: seq<seq<Row>>, pages: seq<Page>)
    requires IsOrder(le) && limit > 0
    requires forall table :: table in tables ==> TableOk(table)
    requires |tables| == |pages| > 0 && IsWalk(workspaceId, limit, le, None, tables, pages)
    requires pages[|pages| - 1].nextCursor.None?
    ensures Joined(pages) == Rest(tables[0], workspaceId, None, le)
    ensures forall i, j :: 0 <= i < j < |Joined(pages)| ==>
              NewerThan(Joined(pages)[i].position, Joined(pages)[j].position, le)
    ensures forall row :: row in Joined(pages) <==> row in tables[0] && row.workspaceId == workspaceId
    ensures |pages| == |Joined(pages)| / limit + 1
  {
    hide Rest, ListMessages, IsWalk, Joined, Sorted, Distinct;
    WalkReads(workspaceId, limit, le, None, tables, pages);
    RestIsOrdered(tables[0], workspaceId, None, le);
    Quotient(|Rest(tables[0], workspaceId, None, le)|, limit, |pages| - 1);
  }

  /** No walk goes on for longer than that: the cursor runs out. */
  lemma WalksEnd(workspaceId: nat, limit: nat, le: IdOrder, tables: seq<seq<Row>>, pages: seq<Page>)
    requires IsOrder(le) && limit > 0
    requires forall table :: table in tables ==> TableOk(table)
    requires |tables| == |pages| > 0 && IsWalk(workspaceId, limit, le, None, tables, pages)
    ensures |pages| <= |Rest(tables[0], workspaceId, None, le)| / limit + 1
  {
    hide Rest, ListMessages, IsWalk, Joined;
    var n := |Rest(tables[0], workspaceId, None, le)|;
    WalkReads(workspaceId, limit, le, None, tables, pages);
    var q := n / limit;
    assert n == q * limit + n % limit;
    if q + 1 < |pages| {
      Apart(q, |pages| - 1, limit);
    }
  }

  /** A channel nobody writes to can be walked from any usable cursor to its end: no page is ever refused. */
  lemma {:induction false} WalkFinishes(table: seq<Row>, workspaceId: nat, limit: nat, le: IdOrder, cursor: Option<Position>)
    returns (tables: seq<seq<Row>>, pages: seq<Page>)
    requires IsOrder(le) && limit > 0 && Usable(cursor) && TableOk(table)
    ensures |tables| == |pages| > 0 && forall t :: t in tables ==> t == table
    ensures IsWalk(workspaceId, limit, le, cursor, tables, pages)
    ensures pages[|pages| - 1].nextCursor.None?
    decreases |Rest(table, workspaceId, cursor, le)|
  {
    hide Rest, ListMessages, EncodeCursor, DecodeCursor, TableOk, IsOrder;
    var rest := Rest(table, workspaceId, cursor, le);
    PageOf(table, workspaceId, limit, cursor, le);
    var page := ListMessages(table, true, workspaceId, limit, AsText(cursor), le).value;
    if |rest| < limit {
      tables, pages := [table], [page];
    } else {
      var last := rest[limit - 1].position;
      RestIsUsable(table, workspaceId, cursor, le, limit - 1);
      CursorRoundTrip(last);
      assert OnlyNewerAdded(table, table, workspaceId, last, le);
      PageLeavesTheRest(table, table, workspaceId, limit, cursor, le);
      var laterTables, laterPages := WalkFinishes(table, workspaceId, limit, le, Some(last));
      tables, pages := [table] + laterTables, [page] + laterPages;
      assert tables[1..] == laterTables && pages[1..] == laterPages;
      assert tables[1] == laterTables[0] && laterTables[0] in laterTables;
      assert DecodeCursor(pages[0].nextCursor.value) == Some(last);
    }
  }
}
