/**
 * Cursor pagination over the message table. A page is a filtered, sorted and limited query; walking back
 * from page to page is shown to read the sorted history exactly once.
 */
module ChatHistory {
  import opened Common
  import opened Messages

  const MAX_LIMIT := 100

  /** The WHERE clauses: the room, not deleted, and the compound cursor if there is one. */
  function Where(room: Room, cursor: Option<Row>): Row -> bool {
    (r: Row) => r.room == room && !r.isDeleted && (cursor.Some? ==> Precedes(r, cursor.value))
  }

  function Select(table: seq<Row>, room: Room, cursor: Option<Row>): seq<Row> {
    Filter(table, Where(room, cursor))
  }

  function InsertDesc(row: Row, rows: seq<Row>): seq<Row> {
    if rows == [] || Precedes(rows[0], row) then [row] + rows
    else [rows[0]] + InsertDesc(row, rows[1..])
  }

  /** ORDER BY createdAt DESC, id DESC. */
  function OrderDesc(rows: seq<Row>): seq<Row> {
    if rows == [] then [] else InsertDesc(rows[0], OrderDesc(rows[1..]))
  }

  function CursorOf(table: seq<Row>, before: Option<Id>): Option<Row> {
    if before.None? then None else Find(table, before.value)
  }

  function PageSize(limit: nat): nat {
    Min(limit, MAX_LIMIT)
  }

  /** The rows of one `getHistory` page: query newest first, cut at the limit, then reverse. */
  function Page(table: seq<Row>, room: Room, before: Option<Id>, limit: nat): seq<Row> {
    var found := OrderDesc(Select(table, room, CursorOf(table, before)));
    Reverse(found[..Min(PageSize(limit), |found|)])
  }

  // ---- Sorting -------------------------------------------------------------------------------------------

  ghost predicate Ascending(s: seq<Row>) {
    forall i, j :: 0 <= i < j < |s| ==> Precedes(s[i], s[j])
  }

  ghost predicate Descending(s: seq<Row>) {
    forall i, j :: 0 <= i < j < |s| ==> Precedes(s[j], s[i])
  }

  lemma {:induction false} InsertDescSorted(row: Row, rows: seq<Row>)
    requires Descending(rows) && forall r :: r in rows ==> r.id != row.id
    ensures Descending(InsertDesc(row, rows))
    ensures forall r :: r in InsertDesc(row, rows) <==> r == row || r in rows
    ensures |InsertDesc(row, rows)| == |rows| + 1
  {
    if rows != [] && !Precedes(rows[0], row) {
      assert rows[0] in rows;
      forall r | r in rows[1..]
        ensures r.id != row.id
      {
        assert r in rows;
      }
      InsertDescSorted(row, rows[1..]);
      assert rows == [rows[0]] + rows[1..];
      var rest := InsertDesc(row, rows[1..]);
      forall j | 0 <= j < |rest|
        ensures Precedes(rest[j], rows[0])
      {
        assert rest[j] in rest;
      }
    }
  }

  lemma {:induction false} OrderDescSorted(rows: seq<Row>)
    requires UniqueIds(rows)
    ensures Descending(OrderDesc(rows)) && |OrderDesc(rows)| == |rows|
    ensures forall r :: r in OrderDesc(rows) <==> r in rows
  {
    if rows != [] {
      OrderDescSorted(rows[1..]);
      InsertDescSorted(rows[0], OrderDesc(rows[1..]));
      assert rows == [rows[0]] + rows[1..];
    }
  }

  /** An ascending sequence is determined by its elements. */
  lemma {:induction false} AscendingUnique(a: seq<Row>, b: seq<Row>)
    requires Ascending(a) && Ascending(b) && forall r :: r in a <==> r in b
    ensures a == b
  {
    if a == [] {
      if b != [] {
        HasElement(b);
      }
    } else {
      assert a[0] in a;
      assert b != [];
      assert b[0] in b;
      var i :| 0 <= i < |a| && a[i] == b[0];
      var j :| 0 <= j < |b| && b[j] == a[0];
      assert a[0] == b[0];
      assert a == [a[0]] + a[1..] && b == [b[0]] + b[1..];
      forall r
        ensures r in a[1..] <==> r in b[1..]
      {
        assert a[0] !in a[1..] && b[0] !in b[1..];
        assert r in a <==> r == a[0] || r in a[1..];
        assert r in b <==> r == b[0] || r in b[1..];
      }
      AscendingUnique(a[1..], b[1..]);
    }
  }

  lemma UniqueIdsFilter(table: seq<Row>, room: Room, cursor: Option<Row>)
    requires UniqueIds(table)
    ensures UniqueIds(Select(table, room, cursor))
  {
    FilterUniqueIds(table, Where(room, cursor));
  }

  lemma {:induction false} FilterUniqueIds(table: seq<Row>, p: Row -> bool)
    requires UniqueIds(table)
    ensures UniqueIds(Filter(table, p))
  {
    if table != [] {
      FilterUniqueIds(table[1..], p);
      FilterMembers(table[1..], p);
      var rest := Filter(table[1..], p);
      forall j | 0 <= j < |rest|
        ensures rest[j].id != table[0].id
      {
        assert rest[j] in rest;
      }
    }
  }

  // ---- One page ------------------------------------------------------------------------------------------

  /** The visible messages of the room before the cursor, oldest first. */
  function Below(table: seq<Row>, room: Room, cursor: Option<Row>): seq<Row> {
    Reverse(OrderDesc(Select(table, room, cursor)))
  }

  /** The whole visible history of the room, oldest first. */
  function History(table: seq<Row>, room: Room): seq<Row> {
    Below(table, room, None)
  }

  lemma SelectMembers(table: seq<Row>, room: Room, cursor: Option<Row>)
    ensures forall r :: r in Select(table, room, cursor) <==>
              r in table && r.room == room && !r.isDeleted && (cursor.Some? ==> Precedes(r, cursor.value))
  {
    FilterMembers(table, Where(room, cursor));
  }

  /** `Below` is what it says: ascending, and exactly the visible rows of the room before the cursor. */
  lemma BelowSorted(table: seq<Row>, room: Room, cursor: Option<Row>)
    requires UniqueIds(table)
    ensures Ascending(Below(table, room, cursor))
    ensures forall r :: r in Below(table, room, cursor) <==>
              r in table && r.room == room && !r.isDeleted && (cursor.Some? ==> Precedes(r, cursor.value))
  {
    var sel := Select(table, room, cursor);
    UniqueIdsFilter(table, room, cursor);
    OrderDescSorted(sel);
    SelectMembers(table, room, cursor);
    ReverseMembers(OrderDesc(sel));
  }

  lemma ReverseMembers<T>(s: seq<T>)
    ensures forall x :: x in Reverse(s) <==> x in s
  {
    var r := Reverse(s);
    forall x
      ensures x in r <==> x in s
    {
      if x in r {
        var i :| 0 <= i < |r| && r[i] == x;
        assert s[|s| - 1 - i] == x;
      }
      if x in s {
        var i :| 0 <= i < |s| && s[i] == x;
        assert r[|s| - 1 - i] == x;
      }
    }
  }

  lemma PageIsSuffix(table: seq<Row>, room: Room, before: Option<Id>, limit: nat)
    ensures var b := Below(table, room, CursorOf(table, before));
            Page(table, room, before, limit) == b[|b| - Min(PageSize(limit), |b|)..]
  {
  }

  /** A visible message of the room, older than the message `before` if there is one. */
  ghost predicate Eligible(r: Row, table: seq<Row>, room: Room, before: Option<Id>) {
    && r in table && r.room == room && !r.isDeleted
    && forall c :: c in table && before == Some(c.id) ==>
         r.createdAt < c.createdAt || (r.createdAt == c.createdAt && r.id < c.id)
  }

  /** The newest eligible messages, at most 100 and at most `limit` of them, oldest first. */
  ghost predicate NewestEligible(page: seq<Row>, table: seq<Row>, room: Room, before: Option<Id>, limit: nat) {
    && (forall i, j :: 0 <= i < j < |page| ==>
          page[i].createdAt < page[j].createdAt || (page[i].createdAt == page[j].createdAt && page[i].id < page[j].id))
    && (forall r :: r in page ==> Eligible(r, table, room, before))
    && |page| <= limit && |page| <= 100
    && (forall r :: Eligible(r, table, room, before) && r !in page ==>
          && (|page| == limit || |page| == 100)
          && forall s :: s in page ==> r.createdAt < s.createdAt || (r.createdAt == s.createdAt && r.id < s.id))
  }

  lemma BelowIsEligible(table: seq<Row>, room: Room, before: Option<Id>, r: Row)
    requires UniqueIds(table)
    ensures r in Below(table, room, CursorOf(table, before)) <==> Eligible(r, table, room, before)
  {
    BelowSorted(table, room, CursorOf(table, before));
    if before.Some? {
      FindFinds(table, before.value);
      forall c | c in table && c.id == before.value
        ensures CursorOf(table, before) == Some(c)
      {
        FindUnique(table, c);
      }
    }
  }

  lemma LeftOutIsOlder(b: seq<Row>, n: nat, r: Row, s: Row)
    requires Ascending(b) && n <= |b| && r in b && r !in b[n..] && s in b[n..]
    ensures Precedes(r, s)
  {
    var i :| 0 <= i < |b| && b[i] == r;
    var j :| 0 <= j < |b[n..]| && b[n..][j] == s;
    assert i < n by {
      assert forall k :: n <= k < |b| ==> b[n..][k - n] == b[k];
    }
    assert Precedes(b[i], b[n + j]);
  }

  lemma SuffixMembers(b: seq<Row>, n: nat, r: Row)
    requires n <= |b| && r in b[n..]
    ensures r in b
  {
  }

  /** The query, its limit and the reversal give the newest eligible messages in order. */
  lemma PageIsNewest(table: seq<Row>, room: Room, before: Option<Id>, limit: nat)
    requires UniqueIds(table)
    ensures NewestEligible(Page(table, room, before, limit), table, room, before, limit)
  {
    var b, page := Below(table, room, CursorOf(table, before)), Page(table, room, before, limit);
    PageIsSuffix(table, room, before, limit);
    BelowSorted(table, room, CursorOf(table, before));
    var n := |b| - Min(PageSize(limit), |b|);
    forall i, j | 0 <= i < j < |page|
      ensures page[i].createdAt < page[j].createdAt || (page[i].createdAt == page[j].createdAt && page[i].id < page[j].id)
    {
      assert Precedes(b[n + i], b[n + j]);
    }
    forall r | r in page
      ensures Eligible(r, table, room, before)
    {
      SuffixMembers(b, n, r);
      BelowIsEligible(table, room, before, r);
    }
    forall r | Eligible(r, table, room, before) && r !in page
      ensures |page| == limit || |page| == 100
      ensures forall s :: s in page ==> r.createdAt < s.createdAt || (r.createdAt == s.createdAt && r.id < s.id)
    {
      BelowIsEligible(table, room, before, r);
      forall s | s in page
        ensures r.createdAt < s.createdAt || (r.createdAt == s.createdAt && r.id < s.id)
      {
        LeftOutIsOlder(b, n, r, s);
      }
    }
  }

  /** In an ascending sequence, the elements before the n-th are those at earlier positions. */
  lemma BeforeNth(b: seq<Row>, n: nat, r: Row)
    requires Ascending(b) && n < |b|
    ensures r in b[..n] <==> r in b && Precedes(r, b[n])
  {
    if r in b && Precedes(r, b[n]) {
      var i :| 0 <= i < |b| && b[i] == r;
      assert i < n;
      assert b[..n][i] == r;
    }
    if r in b[..n] {
      var i :| 0 <= i < n && b[i] == r;
      assert r in b;
    }
  }

  /** Stepping back: below the oldest message of a page lies exactly what the page left over. */
  lemma BelowOldest(table: seq<Row>, room: Room, cursor: Option<Row>, n: nat)
    requires UniqueIds(table) && n < |Below(table, room, cursor)|
    ensures var b := Below(table, room, cursor); b[n] in table && Below(table, room, Some(b[n])) == b[..n]
  {
    var b := Below(table, room, cursor);
    BelowSorted(table, room, cursor);
    assert b[n] in b;
    BelowSorted(table, room, Some(b[n]));
    forall r
      ensures r in Below(table, room, Some(b[n])) <==> r in b[..n]
    {
      BeforeNth(b, n, r);
    }
    AscendingUnique(Below(table, room, Some(b[n])), b[..n]);
  }

  // ---- Walking back --------------------------------------------------------------------------------------

  /** The pages a client gets, newest first, when the oldest message of each is the next `before`. */
  function Walk(table: seq<Row>, room: Room, before: Option<Id>, limit: nat): seq<seq<Row>>
    requires UniqueIds(table) && limit >= 1
    decreases |Below(table, room, CursorOf(table, before))|
  {
    var page := Page(table, room, before, limit);
    if page == [] then []
    else
      StepBack(table, room, before, limit);
      [page] + Walk(table, room, Some(page[0].id), limit)
  }

  lemma StepBack(table: seq<Row>, room: Room, before: Option<Id>, limit: nat)
    requires UniqueIds(table) && limit >= 1 && Page(table, room, before, limit) != []
    ensures var page := Page(table, room, before, limit);
            var b := Below(table, room, CursorOf(table, before));
            && CursorOf(table, Some(page[0].id)) == Some(page[0])
            && Below(table, room, Some(page[0])) == b[..|b| - |page|]
            && b == Below(table, room, Some(page[0])) + page
            && |page| == Min(PageSize(limit), |b|)
  {
    PageIsSuffix(table, room, before, limit);
    var b := Below(table, room, CursorOf(table, before));
    var n := |b| - Min(PageSize(limit), |b|);
    BelowOldest(table, room, CursorOf(table, before), n);
    FindUnique(table, b[n]);
  }

  /** Pages arrive newest first; the client puts each in front of what it has. */
  function Joined(pages: seq<seq<Row>>): seq<Row> {
    if pages == [] then [] else Joined(pages[1..]) + pages[0]
  }

  /** The pages joined together are the sorted history below the starting point, and all but the oldest are full. */
  lemma {:induction false} WalkIsHistory(table: seq<Row>, room: Room, before: Option<Id>, limit: nat)
    requires UniqueIds(table) && limit >= 1
    ensures Joined(Walk(table, room, before, limit)) == Below(table, room, CursorOf(table, before))
    ensures var w := Walk(table, room, before, limit);
            && (forall i :: 0 <= i < |w| ==> 1 <= |w[i]| <= PageSize(limit))
            && (forall i :: 0 <= i < |w| - 1 ==> |w[i]| == PageSize(limit))
    decreases |Below(table, room, CursorOf(table, before))|
  {
    var page := Page(table, room, before, limit);
    PageIsSuffix(table, room, before, limit);
    if page != [] {
      StepBack(table, room, before, limit);
      WalkIsHistory(table, room, Some(page[0].id), limit);
      assert Walk(table, room, before, limit)[1..] == Walk(table, room, Some(page[0].id), limit);
      if Walk(table, room, Some(page[0].id), limit) != [] {
        assert Joined(Walk(table, room, Some(page[0].id), limit)) != [] by {
          assert Page(table, room, Some(page[0].id), limit) != [];
          PageIsSuffix(table, room, Some(page[0].id), limit);
        }
      }
    }
  }

  // ---- Rows arriving during the walk ---------------------------------------------------------------------

  /** `later` is `now` plus rows that are not visible messages of the room before `oldest`. */
  ghost predicate InsertedAbove(now: seq<Row>, later: seq<Row>, room: Room, oldest: Row) {
    && now <= later && UniqueIds(later)
    && forall r :: r in later[|now|..] && r.room == room && !r.isDeleted ==> !Precedes(r, oldest)
  }

  /** The walk when page `i` is served from `tables[i]`, up to the last table given. */
  function WalkOver(tables: seq<seq<Row>>, room: Room, before: Option<Id>, limit: nat): seq<seq<Row>>
    decreases |tables|
  {
    if tables == [] then []
    else
      var page := Page(tables[0], room, before, limit);
      if page == [] then [] else [page] + WalkOver(tables[1..], room, Some(page[0].id), limit)
  }

  /** At each fetch, the rows inserted since the previous one lie above the cursor. */
  ghost predicate GrowsAbove(tables: seq<seq<Row>>, room: Room, before: Option<Id>, limit: nat)
    decreases |tables|
  {
    |tables| >= 2 ==>
      var page := Page(tables[0], room, before, limit);
      page != [] ==>
        InsertedAbove(tables[0], tables[1], room, page[0]) && GrowsAbove(tables[1..], room, Some(page[0].id), limit)
  }

  lemma BelowUnaffected(now: seq<Row>, later: seq<Row>, room: Room, oldest: Row)
    requires InsertedAbove(now, later, room, oldest)
    ensures Below(later, room, Some(oldest)) == Below(now, room, Some(oldest))
  {
    var p := Where(room, Some(oldest));
    assert later == now + later[|now|..];
    FilterConcat(now, later[|now|..], p);
    FilterNothing(later[|now|..], p);
    var found := Select(now, room, Some(oldest));
    assert found + [] == found;
  }

  /** Walks over two tables agree once they agree below the starting row. */
  lemma {:induction false} WalkSame(t: seq<Row>, u: seq<Row>, room: Room, before: Option<Id>, limit: nat, cursor: Row)
    requires UniqueIds(t) && UniqueIds(u) && limit >= 1
    requires CursorOf(t, before) == Some(cursor) && CursorOf(u, before) == Some(cursor)
    requires Below(t, room, Some(cursor)) == Below(u, room, Some(cursor))
    ensures Walk(t, room, before, limit) == Walk(u, room, before, limit)
    decreases |Below(t, room, Some(cursor))|
  {
    PageIsSuffix(t, room, before, limit);
    PageIsSuffix(u, room, before, limit);
    var page := Page(t, room, before, limit);
    if page != [] {
      StepBack(t, room, before, limit);
      StepBack(u, room, before, limit);
      WalkSame(t, u, room, Some(page[0].id), limit, page[0]);
    }
  }

  lemma WalkIgnoresInsertions(t: seq<Row>, u: seq<Row>, room: Room, before: Option<Id>, limit: nat)
    requires UniqueIds(t) && limit >= 1 && Page(t, room, before, limit) != []
    requires InsertedAbove(t, u, room, Page(t, room, before, limit)[0])
    ensures var rest := Some(Page(t, room, before, limit)[0].id); Walk(u, room, rest, limit) == Walk(t, room, rest, limit)
  {
    var oldest := Page(t, room, before, limit)[0];
    StepBack(t, room, before, limit);
    BelowUnaffected(t, u, room, oldest);
    FindFinds(t, oldest.id);
    assert oldest in u;
    FindUnique(u, oldest);
    WalkSame(t, u, room, Some(oldest.id), limit, oldest);
  }

  lemma TakeCons<T>(x: T, s: seq<T>, n: nat)
    ensures ([x] + s)[..Min(n + 1, |s| + 1)] == [x] + s[..Min(n, |s|)]
  {
  }

  /** One page, and then the rest of both walks. */
  lemma OnePageMore(tables: seq<seq<Row>>, room: Room, before: Option<Id>, limit: nat)
    requires tables != [] && UniqueIds(tables[0]) && limit >= 1 && Page(tables[0], room, before, limit) != []
    requires var rest := Some(Page(tables[0], room, before, limit)[0].id);
             var w := Walk(tables[0], room, rest, limit);
             WalkOver(tables[1..], room, rest, limit) == w[..Min(|tables| - 1, |w|)]
    ensures var w := Walk(tables[0], room, before, limit);
            WalkOver(tables, room, before, limit) == w[..Min(|tables|, |w|)]
  {
    var page := Page(tables[0], room, before, limit);
    TakeCons(page, Walk(tables[0], room, Some(page[0].id), limit), |tables| - 1);
  }

  /** Such insertions change nothing: the walk reads the same history it would have read from the first table. */
  lemma {:induction false} WalkIsStable(tables: seq<seq<Row>>, room: Room, before: Option<Id>, limit: nat)
    requires tables != [] && UniqueIds(tables[0]) && limit >= 1 && GrowsAbove(tables, room, before, limit)
    ensures var w := Walk(tables[0], room, before, limit);
            WalkOver(tables, room, before, limit) == w[..Min(|tables|, |w|)]
    decreases |tables|
  {
    var page := Page(tables[0], room, before, limit);
    if page != [] {
      if |tables| >= 2 {
        WalkIgnoresInsertions(tables[0], tables[1], room, before, limit);
        WalkIsStable(tables[1..], room, Some(page[0].id), limit);
      }
      OnePageMore(tables, room, before, limit);
    }
  }
}
