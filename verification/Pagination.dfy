/** Keyset pagination: comments, inbox messages and suggestions are listed newest first, a page at
    a time, each page starting below the key of the last row of the page before. */
module Pagination {
  import opened Text

  /** A table row: the two key columns and the rest. */
  datatype Row = Row(createdAt: string, id: string, data: Data)

  datatype Visibility = Public | HiddenPendingReview | Deleted

  /** The columns of the three tables that their listings filter or show. */
  datatype Data =
    | Comment(catalogId: string, visibility: Visibility, isDeleted: bool, content: string)
    | Message(userId: string, title: string, isRead: bool)
    | Suggestion(author: string, status: string, name: string)

  /** Binary string order. */
  predicate Less(a: string, b: string)
  {
    b != "" && (a == "" || a[0] < b[0] || (a[0] == b[0] && Less(a[1..], b[1..])))
  }

  lemma {:induction false} LessIsTotal(a: string, b: string)
    ensures a == b || Less(a, b) || Less(b, a)
    ensures !(Less(a, b) && Less(b, a)) && !Less(a, a)
    decreases |a|
  {
    if a != "" {
      LessIsTotal(a[1..], a[1..]);
      if b != "" {
        LessIsTotal(a[1..], b[1..]);
        if a[0] == b[0] && a[1..] == b[1..] {
          assert a == [a[0]] + a[1..] && b == [b[0]] + b[1..];
        }
      }
    }
  }

  lemma {:induction false} LessIsTransitive(a: string, b: string, c: string)
    requires Less(a, b) && Less(b, c)
    ensures Less(a, c)
    decreases |a|
  {
    if a != "" && a[0] == b[0] && b[0] == c[0] {
      LessIsTransitive(a[1..], b[1..], c[1..]);
    }
  }

  /** What the string order is: a proper prefix comes first, else the first different character decides. */
  lemma {:induction false} LessMeaning(a: string, b: string)
    ensures Less(a, b) <==> exists k :: DecidesAt(a, b, k)
    decreases |a|
  {
    if b == "" {
      assert !Less(a, b);
    } else if a == "" || a[0] != b[0] {
      assert a == "" || a[0] < b[0] ==> DecidesAt(a, b, 0);
      if k :| DecidesAt(a, b, k) {
        assert k > 0 ==> a[..k][0] == b[..k][0];
      }
    } else {
      LessMeaning(a[1..], b[1..]);
      if k :| DecidesAt(a[1..], b[1..], k) {
        DecidesShift(a, b, k);
      }
      if k :| DecidesAt(a, b, k) {
        assert k > 0;
        DecidesShift(a, b, k - 1);
      }
    }
  }

  /** The texts agree up to position `k`, where the first ends or has the smaller character. */
  predicate DecidesAt(a: string, b: string, k: int)
  {
    0 <= k <= |a| && k < |b| && a[..k] == b[..k] && (k == |a| || a[k] < b[k])
  }

  lemma DecidesShift(a: string, b: string, k: nat)
    requires a != "" && b != "" && a[0] == b[0]
    ensures DecidesAt(a, b, k + 1) <==> DecidesAt(a[1..], b[1..], k)
  {
    if k < |a| && k < |b| {
      assert a[..k + 1] == [a[0]] + a[1..][..k];
      assert b[..k + 1] == [b[0]] + b[1..][..k];
      assert a[1..][..k] == a[..k + 1][1..] && b[1..][..k] == b[..k + 1][1..];
    }
  }

  datatype Key = Key(createdAt: string, id: string)

  function KeyOf(r: Row): Key { Key(r.createdAt, r.id) }

  /** The cursor condition: `created_at < ? OR (created_at = ? AND id < ?)`. */
  predicate KeyLess(a: Key, b: Key)
  {
    Less(a.createdAt, b.createdAt) || (a.createdAt == b.createdAt && Less(a.id, b.id))
  }

  lemma KeyOrder(a: Key, b: Key, c: Key)
    ensures a == b || KeyLess(a, b) || KeyLess(b, a)
    ensures !(KeyLess(a, b) && KeyLess(b, a)) && !KeyLess(a, a)
    ensures KeyLess(a, b) && KeyLess(b, c) ==> KeyLess(a, c)
  {
    LessIsTotal(a.createdAt, b.createdAt);
    LessIsTotal(a.id, b.id);
    LessIsTotal(a.createdAt, a.createdAt);
    LessIsTotal(a.id, a.id);
    if Less(a.createdAt, b.createdAt) && Less(b.createdAt, c.createdAt) {
      LessIsTransitive(a.createdAt, b.createdAt, c.createdAt);
    }
    if Less(a.id, b.id) && Less(b.id, c.id) {
      LessIsTransitive(a.id, b.id, c.id);
    }
  }

  predicate Below(r: Row, cursor: Option<Key>) { cursor.Some? ==> KeyLess(KeyOf(r), cursor.value) }

  // The query ----------------------------------------------------------------------------------------

  function Select(table: seq<Row>, keep: Row -> bool, cursor: Option<Key>): seq<Row>
  {
    if table == [] then []
    else
      var rest := Select(table[1..], keep, cursor);
      if keep(table[0]) && Below(table[0], cursor) then [table[0]] + rest else rest
  }

  function InsertRow(r: Row, sorted: seq<Row>): seq<Row>
  {
    if sorted == [] || KeyLess(KeyOf(sorted[0]), KeyOf(r)) then [r] + sorted
    else [sorted[0]] + InsertRow(r, sorted[1..])
  }

  /** `ORDER BY created_at DESC, id DESC`. */
  function Sort(rows: seq<Row>): seq<Row>
  {
    if rows == [] then [] else InsertRow(rows[0], Sort(rows[1..]))
  }

  function Query(table: seq<Row>, keep: Row -> bool, cursor: Option<Key>): seq<Row>
  {
    Sort(Select(table, keep, cursor))
  }

  /** One page: `LIMIT ?` on the query. */
  function Page(table: seq<Row>, keep: Row -> bool, cursor: Option<Key>, limit: nat): seq<Row>
  {
    var rows := Query(table, keep, cursor);
    if |rows| <= limit then rows else rows[..limit]
  }

  /** The cursor of a full page is the key of its last row; a page that is not full is the last. */
  function NextCursor(page: seq<Row>, limit: nat): Option<Key>
    requires limit >= 1
  {
    if |page| == limit then Some(KeyOf(page[|page| - 1])) else None
  }

  // Sorted enumerations ------------------------------------------------------------------------------

  /** Strictly descending by key. */
  ghost predicate Descending(rows: seq<Row>)
  {
    forall i, j :: 0 <= i < j < |rows| ==> KeyLess(KeyOf(rows[j]), KeyOf(rows[i]))
  }

  ghost predicate DistinctIds(table: seq<Row>)
  {
    forall i, j :: 0 <= i < j < |table| ==> table[i].id != table[j].id
  }

  lemma {:induction false} SelectMembers(table: seq<Row>, keep: Row -> bool, cursor: Option<Key>)
    ensures forall r :: r in Select(table, keep, cursor) <==> r in table && keep(r) && Below(r, cursor)
    ensures DistinctIds(table) ==> DistinctIds(Select(table, keep, cursor))
    decreases |table|
  {
    if table != [] {
      SelectMembers(table[1..], keep, cursor);
      assert table == [table[0]] + table[1..];
      var rest := Select(table[1..], keep, cursor);
      if DistinctIds(table) {
        assert DistinctIds(table[1..]);
        forall k | 0 <= k < |rest|
          ensures rest[k].id != table[0].id
        {
          assert rest[k] in rest;
          var m :| 0 <= m < |table| - 1 && table[1..][m] == rest[k];
          assert table[m + 1] == rest[k];
        }
      }
    }
  }

  lemma {:induction false} InsertDescending(r: Row, sorted: seq<Row>)
    requires Descending(sorted) && forall k :: 0 <= k < |sorted| ==> sorted[k].id != r.id
    ensures Descending(InsertRow(r, sorted))
    ensures forall x :: x in InsertRow(r, sorted) <==> x == r || x in sorted
    decreases |sorted|
  {
    hide KeyLess;
    if sorted != [] {
      var head := sorted[0];
      KeyOrder(KeyOf(r), KeyOf(head), KeyOf(head));
      assert sorted == [head] + sorted[1..];
      if KeyLess(KeyOf(head), KeyOf(r)) {
        forall k | 0 < k < |sorted|
          ensures KeyLess(KeyOf(sorted[k]), KeyOf(r))
        {
          KeyOrder(KeyOf(sorted[k]), KeyOf(head), KeyOf(r));
        }
      } else {
        InsertDescending(r, sorted[1..]);
        var rest := InsertRow(r, sorted[1..]);
        forall k | 0 <= k < |rest|
          ensures KeyLess(KeyOf(rest[k]), KeyOf(head))
        {
          assert rest[k] in rest;
          if rest[k] != r {
            assert rest[k] in sorted[1..];
            var m :| 0 <= m < |sorted| - 1 && sorted[1..][m] == rest[k];
            assert sorted[m + 1] == rest[k];
          }
        }
      }
    }
  }

  lemma {:induction false} SortDescending(rows: seq<Row>)
    requires DistinctIds(rows)
    ensures Descending(Sort(rows))
    ensures forall x :: x in Sort(rows) <==> x in rows
    decreases |rows|
  {
    if rows != [] {
      SortDescending(rows[1..]);
      assert rows == [rows[0]] + rows[1..];
      forall k | 0 <= k < |Sort(rows[1..])|
        ensures Sort(rows[1..])[k].id != rows[0].id
      {
        assert Sort(rows[1..])[k] in Sort(rows[1..]);
        var m :| 0 <= m < |rows| - 1 && rows[1..][m] == Sort(rows[1..])[k];
        assert rows[m + 1] == Sort(rows[1..])[k];
      }
      InsertDescending(rows[0], Sort(rows[1..]));
    }
  }

  /** The query enumerates exactly the kept rows below the cursor, strictly descending. */
  lemma QueryMeaning(table: seq<Row>, keep: Row -> bool, cursor: Option<Key>)
    requires DistinctIds(table)
    ensures Descending(Query(table, keep, cursor))
    ensures forall r :: r in Query(table, keep, cursor) <==> r in table && keep(r) && Below(r, cursor)
  {
    SelectMembers(table, keep, cursor);
    SortDescending(Select(table, keep, cursor));
  }

  /** A set of rows has only one strictly descending enumeration. */
  lemma {:induction false} DescendingIsUnique(a: seq<Row>, b: seq<Row>)
    requires Descending(a) && Descending(b) && forall r :: r in a <==> r in b
    ensures a == b
    decreases |a|
  {
    hide KeyLess;
    assert b != [] ==> b[0] in b;
    if a != [] {
      assert a[0] in b && b != [];
      assert b[0] in a;
      if a[0] != b[0] {
        var i :| 0 <= i < |b| && b[i] == a[0];
        var j :| 0 <= j < |a| && a[j] == b[0];
        KeyOrder(KeyOf(a[0]), KeyOf(b[0]), KeyOf(b[0]));
        assert false;
      }
      HeadOnce(a);
      HeadOnce(b);
      forall r
        ensures r in a[1..] <==> r in b[1..]
      {
        assert r in a[1..] <==> r in a && r != a[0] by { assert a == [a[0]] + a[1..]; }
        assert r in b[1..] <==> r in b && r != b[0] by { assert b == [b[0]] + b[1..]; }
      }
      DescendingIsUnique(a[1..], b[1..]);
    }
  }

  lemma HeadOnce(a: seq<Row>)
    requires Descending(a) && a != []
    ensures a[0] !in a[1..]
  {
    hide KeyLess;
    forall k | 0 < k < |a|
      ensures a[k] != a[0]
    {
      KeyOrder(KeyOf(a[k]), KeyOf(a[0]), KeyOf(a[0]));
    }
  }

  /** Restarting the query below the last row of a full page yields exactly what the page left out. */
  lemma RestOfQuery(table: seq<Row>, keep: Row -> bool, cursor: Option<Key>, n: nat)
    requires DistinctIds(table) && 0 < n <= |Query(table, keep, cursor)|
    ensures Query(table, keep, Some(KeyOf(Query(table, keep, cursor)[n - 1]))) == Query(table, keep, cursor)[n..]
  {
    hide Query, KeyLess;
    var all := Query(table, keep, cursor);
    var c := KeyOf(all[n - 1]);
    var rest := Query(table, keep, Some(c));
    QueryMeaning(table, keep, cursor);
    QueryMeaning(table, keep, Some(c));
    forall r
      ensures r in rest <==> r in all[n..]
    {
      if r in rest {
        if cursor.Some? {
          assert Below(all[n - 1], cursor);
          KeyOrder(KeyOf(r), c, cursor.value);
        }
        assert r in all;
        var k :| 0 <= k < |all| && all[k] == r;
        KeyOrder(KeyOf(r), c, c);
        assert k >= n;
        assert all[n..][k - n] == r;
      }
      if r in all[n..] {
        var k :| 0 <= k < |all| - n && all[n..][k] == r;
        assert all[n + k] == r;
      }
    }
    DescendingIsUnique(rest, all[n..]);
  }

  // Following the cursor -------------------------------------------------------------------------------

  /** The pages a client gets by following `nextCursor` to the end of an unchanging table. */
  function Follow(table: seq<Row>, keep: Row -> bool, cursor: Option<Key>, limit: nat): seq<seq<Row>>
    requires limit >= 1 && DistinctIds(table)
    decreases |Query(table, keep, cursor)|
  {
    var page := Page(table, keep, cursor, limit);
    match NextCursor(page, limit)
    case None => [page]
    case Some(next) =>
      RestOfQuery(table, keep, cursor, limit);
      [page] + Follow(table, keep, Some(next), limit)
  }

  function Flatten(pages: seq<seq<Row>>): seq<Row>
  {
    if pages == [] then [] else pages[0] + Flatten(pages[1..])
  }

  /** For every table and page size, the pages end and join to exactly the filtered, sorted listing. */
  lemma {:induction false} PagesJoinToListing(table: seq<Row>, keep: Row -> bool, cursor: Option<Key>, limit: nat)
    requires limit >= 1 && DistinctIds(table)
    ensures Flatten(Follow(table, keep, cursor, limit)) == Query(table, keep, cursor)
    decreases |Query(table, keep, cursor)|
  {
    hide Query;
    var all := Query(table, keep, cursor);
    var page := Page(table, keep, cursor, limit);
    var pages := Follow(table, keep, cursor, limit);
    match NextCursor(page, limit)
    case None =>
      assert pages == [page] && Flatten(pages) == page + [];
    case Some(next) =>
      RestOfQuery(table, keep, cursor, limit);
      PagesJoinToListing(table, keep, Some(next), limit);
      assert pages[1..] == Follow(table, keep, Some(next), limit);
      assert all == all[..limit] + all[limit..];
  }

  // Tables that change between pages ---------------------------------------------------------------------

  /** A scan reads page k from the k-th table; every page but the last is full. */
  ghost predicate IsScan(tables: seq<seq<Row>>, keep: Row -> bool, cursor: Option<Key>, limit: nat,
                            pages: seq<seq<Row>>)
    requires limit >= 1
    decreases |tables|
  {
    && tables != [] && |pages| == |tables| && DistinctIds(tables[0])
    && pages[0] == Page(tables[0], keep, cursor, limit)
    && match NextCursor(pages[0], limit)
       case None => |tables| == 1
       case Some(next) => |tables| > 1 && IsScan(tables[1..], keep, Some(next), limit, pages[1..])
  }

  /** The row with key `k` is listed in a table. */
  ghost predicate Visible(k: Key, table: seq<Row>, keep: Row -> bool)
  {
    exists r :: r in table && keep(r) && KeyOf(r) == k
  }

  lemma PageMeaning(table: seq<Row>, keep: Row -> bool, cursor: Option<Key>, limit: nat)
    requires limit >= 1 && DistinctIds(table)
    ensures var page := Page(table, keep, cursor, limit);
            Descending(page)
            && (forall r :: r in page ==> r in table && keep(r) && Below(r, cursor))
            && forall r :: r in table && keep(r) && Below(r, cursor) && r !in page ==>
                 NextCursor(page, limit).Some? && KeyLess(KeyOf(r), NextCursor(page, limit).value)
  {
    hide Query, KeyLess;
    var all := Query(table, keep, cursor);
    var page := Page(table, keep, cursor, limit);
    QueryMeaning(table, keep, cursor);
    assert forall k :: 0 <= k < |page| ==> page[k] == all[k] && all[k] in page;
    forall r | r in table && keep(r) && Below(r, cursor) && r !in page
      ensures NextCursor(page, limit).Some? && KeyLess(KeyOf(r), NextCursor(page, limit).value)
    {
      var k :| 0 <= k < |all| && all[k] == r;
      assert page[limit - 1] == all[limit - 1];
    }
    forall r | r in page
      ensures r in table && keep(r) && Below(r, cursor)
    {
      assert r in all;
    }
  }

  /** With rows inserted, hidden or changed between pages, the joined pages stay strictly
      descending, so no row appears twice, and every row listed throughout appears. */
  lemma {:induction false} ScanIsExact(tables: seq<seq<Row>>, keep: Row -> bool, cursor: Option<Key>, limit: nat,
                        pages: seq<seq<Row>>, k: Key)
    requires limit >= 1 && IsScan(tables, keep, cursor, limit, pages)
    ensures Descending(Flatten(pages))
    ensures forall r :: r in Flatten(pages) ==> Below(r, cursor)
    ensures (forall t :: 0 <= t < |tables| ==> Visible(k, tables[t], keep)) && (cursor.Some? ==> KeyLess(k, cursor.value)) ==>
              exists r :: r in Flatten(pages) && KeyOf(r) == k
    decreases |tables|
  {
    hide KeyLess, Page;
    var page := pages[0];
    PageMeaning(tables[0], keep, cursor, limit);
    match NextCursor(page, limit)
    case None =>
      assert Flatten(pages) == page + [];
      if Visible(k, tables[0], keep) && (cursor.Some? ==> KeyLess(k, cursor.value)) {
        var r :| r in tables[0] && keep(r) && KeyOf(r) == k;
        assert r in page;
      }
    case Some(next) =>
      ScanIsExact(tables[1..], keep, Some(next), limit, pages[1..], k);
      var rest := Flatten(pages[1..]);
      assert Flatten(pages) == page + rest;
      JoinDescending(page, rest, next);
      forall r | r in rest
        ensures Below(r, cursor)
      {
        if cursor.Some? {
          assert page[limit - 1] in page;
          KeyOrder(KeyOf(r), next, cursor.value);
        }
      }
      if (forall t :: 0 <= t < |tables| ==> Visible(k, tables[t], keep)) && (cursor.Some? ==> KeyLess(k, cursor.value)) {
        var r :| r in tables[0] && keep(r) && KeyOf(r) == k;
        assert forall t :: 0 <= t < |tables| - 1 ==> tables[1..][t] == tables[t + 1];
        if r in page {
          assert r in Flatten(pages);
        } else {
          assert KeyLess(k, next);
          var r' :| r' in rest && KeyOf(r') == k;
          assert r' in Flatten(pages);
        }
      }
  }

  lemma JoinDescending(page: seq<Row>, rest: seq<Row>, next: Key)
    requires Descending(page) && Descending(rest) && page != [] && next == KeyOf(page[|page| - 1])
    requires forall r :: r in rest ==> KeyLess(KeyOf(r), next)
    ensures Descending(page + rest)
  {
    hide KeyLess;
    var all := page + rest;
    forall i, j | 0 <= i < j < |all|
      ensures KeyLess(KeyOf(all[j]), KeyOf(all[i]))
    {
      if i < |page| <= j {
        assert all[j] in rest;
        if i < |page| - 1 {
          KeyOrder(KeyOf(all[j]), next, KeyOf(all[i]));
        }
      }
    }
  }

  // The three listings ---------------------------------------------------------------------------------

  function ListedComment(catalogId: string): Row -> bool
  {
    (r: Row) => r.data.Comment? && r.data.catalogId == catalogId && r.data.visibility == Public && !r.data.isDeleted
  }

  function ListedMessage(userId: string): Row -> bool
  {
    (r: Row) => r.data.Message? && r.data.userId == userId
  }

  /** An absent or empty author or status does not filter. */
  function ListedSuggestion(userId: Option<string>, status: Option<string>): Row -> bool
  {
    (r: Row) => r.data.Suggestion? && (userId.Some? && userId.value != "" ==> r.data.author == userId.value)
                && (status.Some? && status.value != "" ==> r.data.status == status.value)
  }

  function GetPage(table: seq<Row>, keep: Row -> bool, limit: nat, cursor: Option<Key>): (seq<Row>, Option<Key>)
    requires limit >= 1
  {
    var page := Page(table, keep, cursor, limit);
    (page, NextCursor(page, limit))
  }

  /** `x` comes strictly after `y` in a newest-first listing: older, or as old with the smaller id. */
  predicate Older(x: Row, y: Row)
  {
    Less(x.createdAt, y.createdAt) || (x.createdAt == y.createdAt && Less(x.id, y.id))
  }

  /** The row lies below the cursor's time and id; without a cursor every row does. */
  predicate PastCursor(r: Row, cursor: Option<Key>)
  {
    cursor.Some? ==> Less(r.createdAt, cursor.value.createdAt) || (r.createdAt == cursor.value.createdAt && Less(r.id, cursor.value.id))
  }

  /** The listing by its columns: exactly the kept rows past the cursor, newest first, ids breaking ties
      downwards. A page is its first `limit` rows, and the next cursor holds the time and id of the last
      of them, exactly when there are `limit`. */
  lemma ListingByColumns(table: seq<Row>, keep: Row -> bool, limit: nat, cursor: Option<Key>)
    requires limit >= 1 && DistinctIds(table)
    ensures var all := Query(table, keep, cursor);
            var (page, next) := GetPage(table, keep, limit, cursor);
            && (forall r :: r in all <==> r in table && keep(r) && PastCursor(r, cursor))
            && (forall i, j :: 0 <= i < j < |all| ==> Older(all[j], all[i]))
            && page == all[..if |all| <= limit then |all| else limit]
            && (next.Some? <==> |page| == limit)
            && (next.Some? ==> next.value.createdAt == page[limit - 1].createdAt && next.value.id == page[limit - 1].id)
  {
    hide Less, Query;
    QueryMeaning(table, keep, cursor);
    var all := Query(table, keep, cursor);
    assert all[..|all|] == all;
  }

  /** What every page promises: strictly descending rows, at most `limit` of them, a next cursor exactly
      when full, and nothing listed below the old cursor lost between the page and the next cursor. */
  ghost predicate PageOk(table: seq<Row>, keep: Row -> bool, limit: nat, cursor: Option<Key>)
    requires limit >= 1
  {
    var (page, next) := GetPage(table, keep, limit, cursor);
    && Descending(page) && |page| <= limit && (next.Some? <==> |page| == limit)
    && (forall r :: r in page ==> r in table && keep(r) && Below(r, cursor))
    && (forall r :: r in table && keep(r) && Below(r, cursor) && r !in page ==> next.Some? && KeyLess(KeyOf(r), next.value))
  }

  lemma EveryPageOk(table: seq<Row>, keep: Row -> bool, limit: nat, cursor: Option<Key>)
    requires limit >= 1 && DistinctIds(table)
    ensures PageOk(table, keep, limit, cursor)
  {
    hide KeyLess;
    PageMeaning(table, keep, cursor, limit);
  }

  /** The listing of an entry holds its public undeleted comments and nothing else. */
  lemma CommentPageIsSafe(table: seq<Row>, catalogId: string, limit: nat, cursor: Option<Key>)
    requires limit >= 1 && DistinctIds(table)
    ensures PageOk(table, ListedComment(catalogId), limit, cursor)
    ensures forall r :: r in GetPage(table, ListedComment(catalogId), limit, cursor).0 ==>
              r.data.Comment? && r.data.catalogId == catalogId && r.data.visibility == Public && !r.data.isDeleted
    ensures forall r :: r in Query(table, ListedComment(catalogId), cursor) <==>
              r in table && PastCursor(r, cursor)
              && r.data.Comment? && r.data.catalogId == catalogId && r.data.visibility == Public && !r.data.isDeleted
  {
    hide Query, PastCursor;
    ListingByColumns(table, ListedComment(catalogId), limit, cursor);
    EveryPageOk(table, ListedComment(catalogId), limit, cursor);
  }

  /** An inbox holds the user's own messages and nothing else. */
  lemma InboxPageIsOwn(table: seq<Row>, userId: string, limit: nat, cursor: Option<Key>)
    requires limit >= 1 && DistinctIds(table)
    ensures PageOk(table, ListedMessage(userId), limit, cursor)
    ensures forall r :: r in GetPage(table, ListedMessage(userId), limit, cursor).0 ==> r.data.Message? && r.data.userId == userId
    ensures forall r :: r in Query(table, ListedMessage(userId), cursor) <==>
              r in table && PastCursor(r, cursor) && r.data.Message? && r.data.userId == userId
  {
    hide Query, PastCursor;
    ListingByColumns(table, ListedMessage(userId), limit, cursor);
    EveryPageOk(table, ListedMessage(userId), limit, cursor);
  }

  /** A listing of suggestions holds exactly those of the author and status asked for. */
  lemma SuggestionPageMatches(table: seq<Row>, userId: Option<string>, status: Option<string>, limit: nat, cursor: Option<Key>)
    requires limit >= 1 && DistinctIds(table)
    ensures PageOk(table, ListedSuggestion(userId, status), limit, cursor)
    ensures forall r :: r in GetPage(table, ListedSuggestion(userId, status), limit, cursor).0 ==>
              r.data.Suggestion? && (userId.Some? && userId.value != "" ==> r.data.author == userId.value)
              && (status.Some? && status.value != "" ==> r.data.status == status.value)
    ensures forall r :: r in Query(table, ListedSuggestion(userId, status), cursor) <==>
              r in table && PastCursor(r, cursor) && r.data.Suggestion?
              && (userId.Some? && userId.value != "" ==> r.data.author == userId.value)
              && (status.Some? && status.value != "" ==> r.data.status == status.value)
  {
    hide Query, PastCursor;
    ListingByColumns(table, ListedSuggestion(userId, status), limit, cursor);
    EveryPageOk(table, ListedSuggestion(userId, status), limit, cursor);
  }

  /** An inbox read page by page while messages arrive and are deleted: no message twice, and every
      message there throughout appears. The same holds for comments and suggestions. */
  lemma InboxScanIsExact(tables: seq<seq<Row>>, userId: string, limit: nat, pages: seq<seq<Row>>, k: Key)
    requires limit >= 1 && IsScan(tables, ListedMessage(userId), None, limit, pages)
    ensures Descending(Flatten(pages))
    ensures (forall t :: 0 <= t < |tables| ==> Visible(k, tables[t], ListedMessage(userId))) ==>
              exists r :: r in Flatten(pages) && KeyOf(r) == k
  {
    ScanIsExact(tables, ListedMessage(userId), None, limit, pages, k);
  }

  lemma SuggestionScanIsExact(tables: seq<seq<Row>>, userId: Option<string>, status: Option<string>, limit: nat,
                              pages: seq<seq<Row>>, k: Key)
    requires limit >= 1 && IsScan(tables, ListedSuggestion(userId, status), None, limit, pages)
    ensures Descending(Flatten(pages))
    ensures (forall t :: 0 <= t < |tables| ==> Visible(k, tables[t], ListedSuggestion(userId, status))) ==>
              exists r :: r in Flatten(pages) && KeyOf(r) == k
  {
    ScanIsExact(tables, ListedSuggestion(userId, status), None, limit, pages, k);
  }
}
